# viajes — a verified model of the trip planner's core

The trip planner keeps trips (`Viaje`). Each trip has several kinds of items:

- stops (`Parada`): ordered destinations with arrival and departure dates;
- activities, documents, transports and accommodation stays.

This project models the logic that arranges and checks those items, and proves what that logic promises.

**Stop sequencing** (`stops.dfy`, `sequencing.dfy`, `stop_store.dfy`). Every stop has a position `orden` within its trip. The database requires `(viaje_id, orden)` to be unique. Four request handlers maintain the positions:

- **Resort by date.** Sorts the trip's stops by `(fecha_llegada, fecha_salida, destino.lower(), id)`. It writes negative temporaries first, then the final positions `1..N`. A trip with at most one stop is left alone.
- **Move.** Takes a stop out of the trip's list, which is ordered by `orden`. It re-inserts the stop at the clamped index `nuevo_orden - 1`, then renumbers in the same two phases.
- **Delete.** Removes a stop and lowers by one every stop of the same trip that sat above it.
- **Add.** Inserts a stop with the placeholder position 999 and then runs the resort.

An administrative endpoint runs the resort on every trip with more than one stop and counts them.

`Sequencing` states each operation as a function on the table (a sequence of rows) and proves its properties. `StopStore.StopTable` is the table as a class whose methods set `orden` one stop at a time along the list, as the loops do, and check each write against the unique constraint. The database receives those writes at the flush and the commit, in an order the ORM chooses rather than the list's. `Sequencing.PhaseOneFreeAnyOrder` and `Sequencing.PhaseTwoFreeAnyOrder` prove that no write of either phase clashes whichever stops have already been written, and `Sequencing.AllWrittenIsAssign` that every write order ends in the same table. A database failure at the flush or the commit is a `Fault` parameter, and a failure restores the table as the rollback does.

**Services** (`actividades.dfy`, `documentos.dfy`, `transportes.dfy`, `alojamientos.dfy`):

- grouping by destination or type, in a priority-then-alphabetical order or by group size;
- the completion toggle of an activity;
- document expiry buckets and missing essential documents;
- the transport itinerary, with travel and connection times and critical connections;
- accommodation nights and coverage gaps;
- the counts on each statistics panel, and the completeness checks.

**Index page** (`inicio.dfy`): each trip's status (future, active or past) relative to today, and the preview of its first three stops.

**Settings** (`settings.dfy`): the database URL, with `postgres://` rewritten to `postgresql://`. An unset or empty variable falls back to a local SQLite file.

Shared helpers:

- `grouping.dfy`: the dictionary-building loops, stable sorting by a key, the key ordering, and counting and summing by key.
- `text.dfy`: ASCII lowering, string order and `strip`.
- `wrappers.dfy`: `Option` and `Result`.

Conventions: dates are day numbers, times of day are minutes after midnight (`datetime` is `day * 1440 + minute`), and today's date is a parameter `hoy`. A query's result order is the order of the input sequence.

## Model

| member | source | states |
|---|---|---|
| Stops.DateBeforeTotal | app.py:496-501 | the resort key ends in the unique `id`, so any two different stops are ordered: the sort is deterministic |
| Stops.BeforeTransitive | app.py:496-501 | the tuple comparison of the resort key (and of `orden`) is transitive |
| Stops.SortSorted | app.py:496-501 | `sorted` returns the stops in strictly ascending key order |
| Stops.SortedUnique | app.py:496-501 | two ascending orders of the same stops are equal: there is exactly one sorted sequence |
| Stops.TripIndices | app.py:489 | the trip's stops, each row of that trip exactly once, as many as the trip has |
| Sequencing.WriteKeepsUnique | app.py:111 | one `orden` write keeps `(viaje_id, orden)` unique exactly when no other stop of the trip holds that value |
| Sequencing.AssignFacts | app.py:507-510 | a loop of writes along the order gives the j-th stop the j-th value and leaves every other row as it was |
| Sequencing.PhaseOneFree | app.py:505-513 | from unique non-negative positions, each phase-one temporary `-(i + offset)` is free when it is written |
| Sequencing.PhaseTwoFree | app.py:515-520 | after the temporaries, each final value `i + 1` is free when it is written |
| Sequencing.AssignWrittenAt | app.py:507-510 | writing along the list is one write order: after n writes exactly the first n stops hold their new value and every other row is as it was |
| Sequencing.WrittenAtStep | app.py:513 | one more write, to any stop not yet written, marks exactly that stop as written |
| Sequencing.AllWrittenIsAssign | app.py:513-523 | once every stop is written, the table does not depend on the order the writes reached the database in |
| Sequencing.PhaseOneFreeAnyOrder | app.py:505-513 | whichever stops are already written, an unwritten stop's temporary `-(i + offset)` clashes with nothing: written stops hold other negatives and unwritten ones their old non-negative positions |
| Sequencing.PhaseTwoFreeAnyOrder | app.py:515-523 | whichever stops are already written, an unwritten stop's final position `i + 1` clashes with nothing: written stops hold other finals and unwritten ones negatives |
| Sequencing.TwoPhaseResult | app.py:505-520 | the two loops together give the same table as renumbering the order `1..N` directly |
| Sequencing.RenumberedAt | app.py:517-520 | the stop at sorted index j gets position j + 1; stops of other trips are untouched |
| Sequencing.RenumberedFacts | app.py:515-520 | after renumbering, the table still satisfies the constraint and the trip's positions are exactly `1..N` |
| Sequencing.Resort | app.py:477-529 | `reordenar_paradas_por_fecha` on the table: no change for at most one stop, otherwise the two-phase renumbering along the date order; its contract is stated by `ResortFacts`, `ResortDateOrder`, `ResortContiguous`, `ResortOthers` and `ResortIdempotent` |
| Sequencing.ResortOrderFacts | app.py:496-501 | the resort order lists every stop of the trip once, in ascending date-key order |
| Sequencing.ResortOrderUnique | app.py:496-501 | any ascending arrangement of the trip's stops by the date key is the resort order |
| Sequencing.ResortFacts | app.py:489-520 | resort keeps the table valid; with two stops or more the positions become `1..N` in date-key order; other trips and all fields but `orden` are unchanged |
| Sequencing.ResortDateOrder | app.py:496-520 | after a resort, one stop precedes another exactly when its date key is smaller |
| Sequencing.ResortContiguous | app.py:515-520 | a resorted trip with two stops or more holds exactly the positions `1..N` |
| Sequencing.ResortOthers | app.py:489 | the resort touches only stops of its own trip |
| Sequencing.ResortOrderIgnoresOrden | app.py:496-501 | the resort order does not depend on the current positions |
| Sequencing.ResortIdempotent | app.py:477-529 | a second resort of the same trip changes nothing |
| Sequencing.ResortFrame | app.py:505-520 | resort changes only the `orden` field and keeps the table valid |
| Sequencing.Move | app.py:540-603 | `reordenar_parada` on the table: no change when the position is already the target, otherwise the renumbering along the move order; its contract is stated by `MoveFacts`, `MovePlacesStop` and `MoveKeepsOthersOrder` |
| Sequencing.Without | app.py:563-568 | the list without the moved stop holds exactly the other stops |
| Sequencing.WithoutSorted | app.py:560-568 | dropping the moved stop keeps the list ordered by `orden` |
| Sequencing.Splice | app.py:578 | `list.insert` at a position: one longer, the stop at that position, the others shifted around it |
| Sequencing.MoveOrderFacts | app.py:560-578 | the move order lists every stop of the trip once, the moved stop at the clamped index, the others in their previous `orden` order |
| Sequencing.MoveFacts | app.py:559-590 | a move keeps the table valid, gives the trip positions `1..N`, changes no other trip and no field but `orden` |
| Sequencing.MovePlacesStop | app.py:572-578 | a target below 1 puts the stop first, one beyond N puts it last, any other puts it at that position |
| Sequencing.MoveKeepsOthersOrder | app/services/viaje_service.py:240-255 | the stops that are not moved keep their relative order |
| Sequencing.Delete | app.py:636-664 | `eliminar_parada` on the table: the row removed and the trip's later stops lowered by one; its contract is stated by `DeleteFacts`, `DeleteKeepsOrder`, `DeleteContiguous` and `DeleteTripSize` |
| Sequencing.DeleteFacts | app.py:641-650 | delete removes the row, lowers by one each stop of the trip above it, and leaves all other rows as they were |
| Sequencing.DeleteKeepsOrder | app.py:647-650 | the remaining stops of the trip keep their relative order |
| Sequencing.DeleteContiguous | app.py:647-650 | positions `1..N` become `1..N-1` |
| Sequencing.DeleteTripSize | app.py:644 | the trip loses exactly one stop |
| Sequencing.FindById | app.py:639 | `get_or_404`: the row with that id, or none when no row has it |
| Sequencing.NextId | app.py:475 | a new row's id differs from every existing id |
| Sequencing.AddWith | app.py:456-475 | insert a new stop at a given position and resort, or fail on a taken position; its contract is stated by `AddLandsInRange` and `AddFixedFacts` |
| Sequencing.Add | app.py:456-475 | `agregar_parada` as written, with the placeholder 999; its contract is stated by `AddFirstStopKeepsPlaceholder`, `AddTwiceCollides` and `AddLandsInRange` |
| Sequencing.AddFixed | app.py:456-475 | the corrected add, one past the trip's highest position; its contract is stated by `AddFixedFacts` |
| Sequencing.AddFirstStopKeepsPlaceholder | app/routes/viajes.py:220-222 | the first stop added to an empty trip keeps position 999, because the resort skips single-stop trips |
| Sequencing.AddTwiceCollides | app.py:463 | adding a second stop to a trip that was empty violates the unique constraint (see Findings) |
| Sequencing.AddLandsInRange | app/routes/viajes.py:189-202 | when the trip already has stops and 999 is free, the insert succeeds and the trip ends with positions `1..N+1` |
| Sequencing.AddFixedFacts | app.py:457-475 | the corrected add always succeeds and leaves the trip at `1..N+1` with the new row stored as given |
| Sequencing.ResortAll | app.py:674-692 | `reordenar_todos_viajes` on the table: the resort applied to each listed trip in turn; its contract is stated by `ResortAllFacts` and `ResortAllStep` |
| Sequencing.ResortAllFacts | app.py:681-685 | resorting every trip keeps the table valid, numbers each trip with two stops or more `1..N`, and touches no trip outside the list |
| Sequencing.ResortAllStep | app.py:681-685 | one turn of the admin loop resorts that trip and counts it exactly when it has more than one stop |
| StopStore.ClearMeans | app.py:677-692 | the admin loop runs to the end exactly when no trip that needs a resort fails |
| StopStore.StopTable.constructor | app.py:111 | a table is built from rows that satisfy the constraint |
| StopStore.StopTable.SetOrden | app.py:510 | a single-row write at a free position keeps the constraint |
| StopStore.StopTable.WriteTemporaries | app.py:507-513 | phase one writes the temporaries along the order and never breaks the constraint |
| StopStore.StopTable.WriteFinals | app.py:517-520 | phase two writes `1..N` along the order and never breaks the constraint |
| StopStore.StopTable.Renumber | app.py:505-529 | the two phases and the commit renumber the trip, or, on a failed flush or commit, leave the table as it was |
| StopStore.StopTable.ResortTrip | app.py:477-529 | `reordenar_paradas_por_fecha`: no writes for at most one stop; otherwise the resort, or an error with the table rolled back |
| StopStore.StopTable.OthersByOrden | app.py:560-568 | the loop building `paradas_temp` returns the other stops of the trip by `orden` |
| StopStore.StopTable.MoveStop | app.py:549-603 | unknown stop: not found; unchanged target position: success with no writes; otherwise the move, or an error with the table rolled back |
| StopStore.StopTable.ReorderRequest | app.py:541-547 | a body without `nuevo_orden` is 'Datos incompletos', one `int()` rejects is an error, and neither changes anything |
| StopStore.StopTable.DeleteStop | app.py:637-664 | unknown stop: not found; otherwise the delete, or an error with the table unchanged |
| StopStore.StopTable.Insert | app.py:469-473 | a taken position fails the insert; otherwise the row is added and the trip resorted; a failed resort leaves the committed insert |
| StopStore.StopTable.AddStop | app.py:457-475 | `agregar_parada` as written: insert at 999, then resort |
| StopStore.StopTable.AddStopFixed | app.py:457-475 | the corrected `agregar_parada` never meets the unique constraint |
| StopStore.StopTable.AdminPass | app/routes/viajes.py:404-408 | one pass of the admin loop: resort and count a trip with more than one stop, or stop on failure |
| StopStore.StopTable.ResortAllTrips | app.py:675-692 | `reordenar_todos_viajes` succeeds exactly when no needed resort fails, and then returns the number of trips with more than one stop |
| Actividades.CrearFacts | app/services/actividad_service.py:48-62 | a missing, blank or non-text `hora` is stored as None; a readable one as read; an unreadable one fails; new activities are not completed |
| Actividades.Completado | app/services/actividad_service.py:91-94 | no requested value toggles the flag; a requested value is stored |
| Actividades.Find | app/services/actividad_service.py:86-88 | `query.get`: the activity with that id, or none when no activity has it |
| Actividades.ActividadTable.Completar | app/services/actividad_service.py:74-98 | unknown id: not found and nothing changes; otherwise only that activity's flag changes, and the returned value is the stored one |
| Actividades.RankIsLexicographic | app/services/actividad_service.py:144-147 | the single sort number orders activities as the pair `(fecha, hora or 00:00)` does |
| Actividades.AgruparPorDestino | app/services/actividad_service.py:132-161 | the grouping loops build the ordered dictionary the grouping function describes |
| Actividades.AgrupadasOnce | app/services/actividad_service.py:136-140 | each activity is in exactly one group, the one of its destination or 'general' |
| Actividades.AgrupadasKeys | app/services/actividad_service.py:150-159 | the group keys are the arranged destination keys, in that order |
| Actividades.AgrupadasKeyOrder | app/services/actividad_service.py:150-159 | 'general', when present, comes first; the other destinations follow in ascending order |
| Actividades.AgrupadasSorted | app/services/actividad_service.py:143-147 | each group is sorted by `(fecha, hora)`, and activities with equal keys keep their input order |
| Actividades.Tally | app/services/actividad_service.py:201-208 | one turn of the per-destination loop counts the activity under its destination |
| Actividades.ObtenerEstadisticas | app/services/actividad_service.py:192-209 | total, completed, pending = total − completed, and per destination the count and completed count |
| Actividades.EstadisticasFacts | app/services/actividad_service.py:192-209 | completed + pending = total; the per-destination totals add up to the total; completed never exceeds a destination's total |
| Documentos.CrearFacts | app/services/documento_service.py:43-46 | an expiry date is parsed only from non-blank text; anything else becomes None; unreadable text fails the creation |
| Documentos.TiposOrdenadosUnique | app/services/documento_service.py:98 | the known types are listed once each |
| Grouping.GroupArranged | app/services/documento_service.py:91-111 | the append loop and the two ordering loops, shared by the document and transport grouping, build exactly the ordered dictionary `ByKey` describes |
| Grouping.ByKeyOnce | app/services/documento_service.py:94-95 | with a priority list that has no repeats, every element is in exactly one group, the one of its key |
| Grouping.ByKeyKeyOrder | app/services/documento_service.py:101-109 | the priority keys that occur come first, in priority order; the other keys follow, strictly ascending |
| Documentos.AgruparPorTipo | app/services/documento_service.py:91-111 | the grouping loops build the dictionary the grouping function describes |
| Documentos.AgrupadosOnce | app/services/documento_service.py:94-95 | each document is in exactly one group, the one of its type |
| Documentos.AgrupadosKeys | app/services/documento_service.py:98-109 | the group keys are the arranged type keys, in that order |
| Documentos.AgrupadosKeyOrder | app/services/documento_service.py:101-109 | known types first, in their fixed order; then the unknown types in ascending order |
| Documentos.Clasificar | app/services/documento_service.py:135-143 | the status of one document against `hoy` and the warning window; its contract is stated by `ClasificarMeans` |
| Documentos.ClasificarMeans | app/services/documento_service.py:135-143 | no date: sin_fecha; before today: vencido; up to `hoy + dias`: por vencer; later: vigente |
| Documentos.EnEstadoExactly | app/services/documento_service.py:135-143 | a bucket holds exactly the documents of that status |
| Documentos.VerificarVencimientos | app/services/documento_service.py:124-145 | the loop fills each of the four buckets with its documents, in input order |
| Documentos.BucketsAddUp | app/services/documento_service.py:135-143 | the four bucket sizes add up to the number of documents |
| Documentos.BucketsPartition | app/services/documento_service.py:135-143 | each document is in exactly one bucket |
| Documentos.Criticos | app/services/documento_service.py:147-158 | `obtener_documentos_criticos`: the expired then the expiring documents at 15 days; its contract is stated by `CriticosMeans` |
| Documentos.CriticosMeans | app/services/documento_service.py:157-158 | critical documents are exactly those with a date no later than `hoy + 15` |
| Documentos.SinFechaCount | app/services/documento_service.py:174-175 | the undated bucket has as many documents as `total - con_fecha` |
| Documentos.ObtenerEstadisticas | app/services/documento_service.py:170-191 | every count on the panel, with needing attention = expired + expiring and the per-type counts |
| Documentos.EstadisticasFacts | app/services/documento_service.py:173-190 | the dated buckets add up to `con_fecha`, and the per-type counts add up to the total |
| Documentos.Validar | app/services/documento_service.py:193-222 | `validar_documentos_para_viaje`; its contract is stated by `FaltantesExactly` and `ValidarMeans` |
| Documentos.FaltantesExactly | app/services/documento_service.py:210-211 | the missing list holds exactly the required types that are absent |
| Documentos.ValidarMeans | app/services/documento_service.py:203-217 | missing essentials are those no document's lower-cased type matches; complete iff none is missing and no document is critical |
| Transportes.AgruparPorTipo | app/services/transporte_service.py:117-137 | the grouping loops build the dictionary the grouping function describes |
| Transportes.AgrupadosOnce | app/services/transporte_service.py:120-121 | each transport is in exactly one group, the one of its type |
| Transportes.AgrupadosKeys | app/services/transporte_service.py:124-135 | the group keys are the arranged type keys, in that order |
| Transportes.AgrupadosKeyOrder | app/services/transporte_service.py:127-135 | vuelo, tren, bus, ferry, taxi, transfer, otros when present; then the unknown types in ascending order |
| Transportes.ObtenerItinerario | app/services/transporte_service.py:149-193 | the loop appends the entry the itinerary function describes for each transport |
| Transportes.ItinerarioShape | app/services/transporte_service.py:167-190 | one entry per transport in input order; only the last is last and has no next transport or connection |
| Transportes.TiempoViaje | app/services/transporte_service.py:154-164 | the travel time of one transport; its contract is stated by `TiempoViajeMeans` |
| Transportes.TiempoViajeMeans | app/services/transporte_service.py:154-164 | travel time exists iff both times do; it is arrival − departure, plus a day when negative |
| Transportes.TiempoConexion | app/services/transporte_service.py:173-183 | the connection time to the next transport; its contract is stated by `TiempoConexionMeans` |
| Transportes.TiempoConexionMeans | app/services/transporte_service.py:173-183 | connection time exists iff the arrival and the next departure times do; plus a day when negative |
| Transportes.Criticas | app/services/transporte_service.py:209-217 | the critical connections of an itinerary under a minimum, as a function; its contract is stated by `CriticasMeans` and `CriticasAtMostLinks` |
| Transportes.VerificarConexionesCriticas | app/services/transporte_service.py:206-219 | the loop collects the critical connections in itinerary order |
| Transportes.CriticasMeans | app/services/transporte_service.py:209-217 | critical connections are those with a non-zero time under the minimum; the difference is positive and fills up to the minimum |
| Transportes.CriticasAtMostLinks | app/services/transporte_service.py:167-171 | there are fewer critical connections than transports |
| Transportes.ObtenerEstadisticas | app/services/transporte_service.py:250-274 | total, per-type counts, the completeness counts, and the number of critical connections at one hour |
| Transportes.EstadisticasFacts | app/services/transporte_service.py:254-256 | the per-type counts add up to the total |
| Transportes.Recomendaciones | app/services/transporte_service.py:305-323 | the advice list, one entry per kind of gap found; its contract is stated, for complete transports, by `ValidarMeans` |
| Transportes.Validar | app/services/transporte_service.py:276-303 | `validar_transportes_para_viaje` with the one-hour minimum; its contract is stated by `ValidarMeans` |
| Transportes.ValidarMeans | app/services/transporte_service.py:286-303 | complete iff every transport has a booking code and both times and no connection is critical; the problem list holds exactly those lacking one |
| Alojamientos.CrearFacts | app/services/alojamiento_service.py:64-65 | a stay is created iff check-out is after check-in, and then it lasts at least one night |
| Alojamientos.SortEach | app/services/alojamiento_service.py:129-130 | the loop sorts each group by check-in date |
| Alojamientos.AgruparPorDestino | app/services/alojamiento_service.py:117-132 | the grouping loops build the dictionary the grouping function describes |
| Alojamientos.AgrupadosOnce | app/services/alojamiento_service.py:120-122 | each stay is in exactly one group, the one of its lower-cased destination or 'otros' |
| Alojamientos.AgrupadosOrder | app/services/alojamiento_service.py:126-130 | groups come largest first, and each group is sorted by check-in date |
| Alojamientos.AgrupadosStable | app/services/alojamiento_service.py:126-127 | groups of equal size keep their first-appearance order |
| Alojamientos.CalcularNoches | app/services/alojamiento_service.py:144-160 | total nights, number of stays, and the nights per destination |
| Alojamientos.AtLeastOneNightEach | app/services/alojamiento_service.py:150-151 | when every stay passed the creation check, there are at least as many nights as stays |
| Alojamientos.NochesFacts | app/services/alojamiento_service.py:146-159 | the per-destination nights add up to the total |
| Alojamientos.Gaps | app/services/alojamiento_service.py:182-225 | the start, between and end gaps of the sorted stays; its contract is stated by `GapsInicio`, `GapsIntermedios` and `GapsFinal` |
| Alojamientos.ContinuidadDe | app/services/alojamiento_service.py:162-234 | `verificar_continuidad_alojamiento` as a function; its contract is stated by `ContinuidadFacts` |
| Alojamientos.VerificarContinuidad | app/services/alojamiento_service.py:172-234 | the coverage report the coverage function describes, with its three outcomes |
| Alojamientos.BuscarGaps | app/services/alojamiento_service.py:182-225 | the start, between and end gaps, in that order |
| Alojamientos.AgregarIntermedios | app/services/alojamiento_service.py:198-212 | the loop appends one gap per consecutive pair with a hole between them |
| Alojamientos.GapsInicio | app/services/alojamiento_service.py:185-195 | a start gap exists iff the first check-in is after the trip starts; its days are the difference |
| Alojamientos.GapsIntermedios | app/services/alojamiento_service.py:198-212 | the between gaps are exactly the pairs where check-out is before the next check-in |
| Alojamientos.IntermediosExactly | app/services/alojamiento_service.py:198-212 | each between gap comes from such a pair, and each such pair gives one |
| Alojamientos.GapsFinal | app/services/alojamiento_service.py:215-225 | an end gap exists iff the last check-out is before the trip ends |
| Alojamientos.ContinuidadFacts | app/services/alojamiento_service.py:174-234 | no stays: no report; no trip: not found; otherwise full coverage iff no gaps iff no uncovered days, and the total counts the gaps |
| Alojamientos.Recomendaciones | app/services/alojamiento_service.py:353-378 | the advice list: add stays when there are none, else one entry per kind of gap found; its contract is stated by `ValidarMeans` |
| Alojamientos.Informar | app/services/alojamiento_service.py:336-351 | the validation report built from a coverage answer; its contract is stated by `ValidarMeans` |
| Alojamientos.ValidarEscrito | app/services/alojamiento_service.py:323-351 | `validar_alojamientos_para_viaje` as written; its contract is stated by `ValidarEscritoFalla` and `ValidarMeans` |
| Alojamientos.Validar | app/services/alojamiento_service.py:323-351 | the corrected validation; its contract is stated by `ValidarMeans` |
| Alojamientos.ValidarEscritoFalla | app/services/alojamiento_service.py:347 | as written, validation of a trip without stays fails on a missing key (see Findings) |
| Alojamientos.ValidarMeans | app/services/alojamiento_service.py:333-351 | the corrected validation answers for every trip and agrees with the original wherever that answers; complete iff there are stays, no gaps, and every stay has a confirmation and a full address |
| Inicio.EstadoDe | app/routes/main.py:48-56 | the status of one trip against today; its contract is stated by `EstadoMeans` |
| Inicio.EstadoMeans | app/routes/main.py:48-56 | future iff the start is after today; active iff today is within the dates; past otherwise, including when a date is missing |
| Inicio.Resumen | app/routes/main.py:59-64 | the stop preview of one trip; its contract is stated by `ResumenMeans` |
| Inicio.ResumenMeans | app/routes/main.py:59-64 | the total, the first min(3, total) stops, whether there are more, and how many more |
| Inicio.ParadasDe | app/models/viaje.py:23 | the `viaje.paradas` relationship, ordered by `orden`; its contract is stated by `ParadasDeMeans` |
| Inicio.ParadasDeMeans | app/models/viaje.py:23 | a trip's stops are exactly its rows, in ascending `orden` |
| Inicio.Entry | app/routes/main.py:47-72 | the loop body computes the trip's status and stop preview |
| Inicio.EntriesMeans | app/routes/main.py:47-72 | exactly one entry per trip, in the order queried |
| Inicio.Index | app/routes/main.py:44-74 | the loop appends the entries in trip order |
| Settings.ReplaceFirstAbsent | config/settings.py:21 | `replace` leaves a string without the pattern unchanged |
| Settings.PostgresqlIsNotPostgres | config/settings.py:20 | a `postgresql://` URL does not start with `postgres://` |
| Settings.DatabaseUri | config/settings.py:16-27 | `get_database_uri` with the environment and the local path as parameters; its contract is stated by `DatabaseUriMeans` and `DatabaseUriIdempotent` |
| Settings.DatabaseUriMeans | config/settings.py:16-27 | `postgres://` becomes `postgresql://` with the rest kept; any other set URL is returned as is; unset or empty gives the SQLite path |
| Settings.DatabaseUriIdempotent | config/settings.py:20-21 | applying the rewrite to its own output changes nothing |

## Left out

- The database layer (SQLAlchemy sessions, queries, flush, commit, rollback) is an in-memory sequence of rows. A failure is a `Fault` parameter; what fails the database in practice is outside the model.
- Query result order is the order of the input sequence. `order_by` is modelled only where the code depends on it: stops by `orden` in a move and on the index page.
- `date.today()`, `datetime.strptime` and `os.environ` are parameters. Dates are day numbers and times are minutes; calendar arithmetic is not modelled.
- The date texts of a new stop, of a new activity (`crear_actividad`) and of a new stay (`crear_alojamiento`) are taken as already parsed day numbers. A malformed date makes `agregar_parada` fail before it writes anything, and makes the two services return an error; those error paths are not modelled.
- `str.lower` is ASCII lowering and `str.strip` removes ASCII whitespace; Unicode case folding and Unicode whitespace are not modelled.
- Floating point is not modelled: the percentages and averages on the statistics panels, the budget fields, and all of the expense service.
- Every HTTP, JSON, redirect and template detail is out of scope. The thin blueprint wrappers and their error strings are reduced to the `Error` values.
- `title()` in the consolidation advice is not modelled; the destination key is reported as it is.
- The check-in and check-out times of a stay, and the other time conversions in `crear_alojamiento`, are not modelled, because nothing the core decides depends on them.
- `crear_transporte`, `obtener_transportes_proximos`, `obtener_alojamientos_actuales`, `obtener_proximos_checkins` and the accommodation statistics panel are not modelled. They are date-window queries or float averages.
- The update and delete operations of the services (`eliminar_*`, `actualizar_*`) are not modelled; they are single-row writes.
- `editar_parada` is modelled only in part. Its field edit of `destino` and both dates is not modelled. The resort it runs after its commit is `StopStore.StopTable.ResortTrip`.
- StopStore.StopTable.WriteTemporaries and StopStore.StopTable.WriteFinals issue and check the writes in list order, as the loops set the attributes. The order in which the flush sends the UPDATEs is not modelled in these methods; `Sequencing.PhaseOneFreeAnyOrder`, `Sequencing.PhaseTwoFreeAnyOrder` and `Sequencing.AllWrittenIsAssign` cover every write order as lemmas.
- StopStore.StopTable.DeleteStop: the bulk decrement is one atomic step. The order in which the database checks the constraint row by row inside the UPDATE is not visible in the code.
- StopStore.StopTable.ResortAllTrips: after a failure it states only the error. The resorts the loop committed before the failure remain, and the model does not say which table results.
- Concurrent requests on the same trip are not modelled; the code takes no locks.
- The trip-deletion cascade, database bootstrap and health endpoints, the front-end scripts, the icon generators and the debug scripts are not modelled. They are I/O with no logic of their own.
- `Config.get_database_uri` builds its local path with `os.path`, and its message goes to the console. The path is a parameter and the message is left out.

## Findings

| source | as written | input that shows it | evidently intended | confidence | as-written member | corrected member |
|---|---|---|---|---|---|---|
| app.py:463 | a new stop is inserted at position 999 and then resorted, but the resort skips a trip with one stop, so the first stop of a trip keeps 999 | add two stops to a trip that has none: the second insert also uses 999 in the same trip and violates the `(viaje_id, orden)` constraint | insert one past the trip's highest position, so the insert never collides and the trip always ends at `1..N` | not executed | Sequencing.AddTwiceCollides | Sequencing.AddFixedFacts |
| app/services/alojamiento_service.py:347 | validation reads `total_gaps` from the coverage report, which has no such key for a trip without stays | validate a trip with no stays: the lookup fails with a `KeyError` | report the trip as incomplete, with no gaps, no uncovered days and the advice to add stays | not executed | Alojamientos.ValidarEscritoFalla | Alojamientos.ValidarMeans |
