/**
 * The stop table as the request handlers change it: one `orden` write at a
 * time, a flush between the two renumbering loops and a commit at the end.
 * Every write is checked against the unique constraint on
 * `(viaje_id, orden)`, so these methods verifying is the proof that the
 * two-phase protocol never trips it. A failed flush or commit rolls the table
 * back to where the request found it.
 */
module StopStore {
  import opened Wrappers
  import opened Stops
  import opened Sequencing

  /** Where a database round trip can fail for reasons outside the model (a lost connection, say). */
  datatype Fault = NoFault | FailsAtFlush | FailsAtCommit

  /** `nuevo_orden` in a move request: absent, not convertible by `int()`, or an integer. */
  datatype OrdenField = Missing | Malformed | Given(n: int)

  /** Trip `v` needs a resort (two stops or more) and its resort fails. */
  predicate Blocked(rows: seq<Parada>, v: int, fault: Fault)
  {
    TripSize(rows, v) > 1 && fault != NoFault
  }

  /** No trip of `viajes` is blocked: the admin loop runs to the end. */
  predicate Clear(rows: seq<Parada>, viajes: seq<int>, faults: seq<Fault>)
    requires |faults| == |viajes|
  {
    |viajes| == 0 ||
    (Clear(rows, viajes[..|viajes| - 1], faults[..|faults| - 1]) && !Blocked(rows, viajes[|viajes| - 1], faults[|faults| - 1]))
  }

  lemma {:induction false} ClearMeans(rows: seq<Parada>, viajes: seq<int>, faults: seq<Fault>)
    requires |faults| == |viajes|
    ensures Clear(rows, viajes, faults) <==> forall j :: 0 <= j < |viajes| ==> !Blocked(rows, viajes[j], faults[j])
  {
    if |viajes| > 0 {
      var n := |viajes| - 1;
      ClearMeans(rows, viajes[..n], faults[..n]);
      assert forall j :: 0 <= j < n ==> viajes[..n][j] == viajes[j] && faults[..n][j] == faults[j];
    }
  }

  lemma ClearStep(rows: seq<Parada>, viajes: seq<int>, faults: seq<Fault>, i: nat)
    requires i < |viajes| == |faults|
    requires Clear(rows, viajes[..i], faults[..i]) && !Blocked(rows, viajes[i], faults[i])
    ensures Clear(rows, viajes[..i + 1], faults[..i + 1])
  {
    assert viajes[..i + 1][..i] == viajes[..i] && faults[..i + 1][..i] == faults[..i];
  }

  class StopTable {
    var rows: seq<Parada>
    /** Single-row `orden` writes issued so far, whether later committed or rolled back. */
    ghost var writes: nat

    predicate Valid()
      reads this
    {
      Consistent(rows)
    }

    constructor (initial: seq<Parada>)
      requires Consistent(initial)
      ensures Valid() && rows == initial && writes == 0
    {
      rows := initial;
      writes := 0;
    }

    /** `parada.orden = value`, which the database accepts only while no sibling holds `value`. */
    method SetOrden(k: nat, value: int)
      requires k < |rows| && UniqueOrden(rows) && Free(rows, k, value)
      modifies this
      ensures rows == WriteOrden(old(rows), k, value) && UniqueOrden(rows)
      ensures writes == old(writes) + 1
    {
      WriteKeepsUnique(rows, k, value);
      rows := WriteOrden(rows, k, value);
      writes := writes + 1;
    }

    /** Phase 1 of the renumbering: the i-th stop of `order` gets `-(i + offset)`. */
    method WriteTemporaries(order: seq<nat>, ghost v: int, offset: int)
      requires Valid() && Covers(rows, order, v) && offset >= 1
      modifies this
      ensures rows == Assign(old(rows), order, Temps(|order|, offset), |order|)
      ensures UniqueOrden(rows)
      ensures writes == old(writes) + |order|
    {
      ghost var snapshot := rows;
      var i := 0;
      while i < |order|
        invariant 0 <= i <= |order|
        invariant rows == Assign(snapshot, order, Temps(|order|, offset), i)
        invariant UniqueOrden(rows)
        invariant writes == old(writes) + i
      {
        PhaseOneFree(snapshot, order, v, offset, i);
        SetOrden(order[i], -(i + offset));
        i := i + 1;
      }
    }

    /** Phase 2 of the renumbering, after the flush: the i-th stop of `order` gets `i + 1`. */
    method WriteFinals(order: seq<nat>, ghost v: int, offset: int, ghost snapshot: seq<Parada>)
      requires Consistent(snapshot) && Covers(snapshot, order, v) && offset >= 1
      requires rows == Assign(snapshot, order, Temps(|order|, offset), |order|) && UniqueOrden(rows)
      modifies this
      ensures rows == Assign(old(rows), order, Finals(|order|), |order|)
      ensures writes == old(writes) + |order|
    {
      ghost var mid := rows;
      assert InRange(mid, order);
      var i := 0;
      while i < |order|
        invariant 0 <= i <= |order|
        invariant rows == Assign(mid, order, Finals(|order|), i)
        invariant UniqueOrden(rows)
        invariant writes == old(writes) + i
      {
        PhaseTwoFree(snapshot, order, v, offset, i);
        assert Finals(|order|)[i] == i + 1;
        SetOrden(order[i], i + 1);
        i := i + 1;
      }
    }

    /**
     * The two loops shared by resort and move: phase 1, flush, phase 2,
     * commit. A failure at the flush or the commit rolls back.
     */
    method Renumber(order: seq<nat>, ghost v: int, offset: int, fault: Fault) returns (r: Result<(), Error>)
      requires Valid() && Covers(rows, order, v) && offset >= 1
      modifies this
      ensures Valid()
      ensures r.Ok? <==> fault == NoFault
      ensures r.Ok? ==> rows == Renumbered(old(rows), order)
      ensures r.Err? ==> r.error == DatabaseError && rows == old(rows)
      ensures writes == old(writes) + (if fault == FailsAtFlush then |order| else 2 * |order|)
    {
      var snapshot := rows;
      WriteTemporaries(order, v, offset);
      if fault == FailsAtFlush {
        rows := snapshot;
        return Err(DatabaseError);
      }
      WriteFinals(order, v, offset, snapshot);
      if fault == FailsAtCommit {
        rows := snapshot;
        return Err(DatabaseError);
      }
      TwoPhaseResult(snapshot, order, offset);
      RenumberedFacts(snapshot, order, v);
      r := Ok(());
    }

    /**
     * `reordenar_paradas_por_fecha`: a trip with at most one stop is left
     * without a write; otherwise its stops are renumbered in date order with
     * temporaries `-(i + 1000)`. A failure rolls back and is reported.
     */
    method ResortTrip(v: int, fault: Fault) returns (r: Result<(), Error>)
      requires Valid()
      modifies this
      ensures Valid()
      ensures TripSize(old(rows), v) <= 1 ==> r.Ok? && rows == old(rows) && writes == old(writes)
      ensures TripSize(old(rows), v) > 1 ==> (r.Ok? <==> fault == NoFault)
      ensures r.Ok? ==> rows == Resort(old(rows), v)
      ensures r.Err? ==> r.error == DatabaseError && rows == old(rows)
    {
      var paradas := TripIndices(rows, v);
      if |paradas| <= 1 {
        return Ok(());
      }
      var ordenadas := ResortOrder(rows, v);
      ResortOrderFacts(rows, v);
      r := Renumber(ordenadas, v, 1000, fault);
    }

    /** `paradas_temp`: the trip's stops by position, the moved one left out. */
    method OthersByOrden(k: nat) returns (temp: seq<nat>)
      requires k < |rows|
      ensures temp == Others(rows, k)
    {
      var rs := rows;
      var paradas := Sort(rs, ByOrden, TripIndices(rs, rs[k].viajeId));
      temp := [];
      var j := 0;
      while j < |paradas|
        invariant 0 <= j <= |paradas|
        invariant temp == Without(paradas[..j], k)
      {
        WithoutSnoc(paradas, k, j);
        if paradas[j] != k {
          temp := temp + [paradas[j]];
        }
        j := j + 1;
      }
      assert paradas[..j] == paradas;
    }

    /**
     * `reordenar_parada_especifica`: an unknown stop is an error; a target equal
     * to the current position succeeds without a write; otherwise the stop is
     * taken out of the trip's list by position, put back at the clamped index
     * and the trip renumbered with temporaries `-(i + 1)`.
     */
    method MoveStop(id: int, nuevo: int, fault: Fault) returns (r: Result<(), Error>)
      requires Valid()
      modifies this
      ensures Valid()
      ensures FindById(old(rows), id).None? ==> r == Err(NotFound) && rows == old(rows) && writes == old(writes)
      ensures FindById(old(rows), id).Some? ==>
        var k := FindById(old(rows), id).value;
        && (old(rows)[k].orden == nuevo ==> r.Ok? && rows == old(rows) && writes == old(writes))
        && (old(rows)[k].orden != nuevo ==> (r.Ok? <==> fault == NoFault))
        && (r.Ok? ==> rows == Move(old(rows), k, nuevo))
      ensures r.Err? ==> rows == old(rows)
    {
      var found := FindById(rows, id);
      if found.None? {
        return Err(NotFound);
      }
      var k := found.value;
      var v := rows[k].viajeId;
      if rows[k].orden == nuevo {
        return Ok(());
      }
      var temp := OthersByOrden(k);
      var pos := nuevo - 1;
      if pos < 0 {
        pos := 0;
      } else if pos > |temp| {
        pos := |temp|;
      }
      temp := temp[..pos] + [k] + temp[pos..];
      assert temp == MoveOrder(rows, k, nuevo);
      MoveOrderFacts(rows, k, nuevo);
      r := Renumber(temp, v, 1, fault);
    }

    /**
     * `reordenar_parada` (the route): a body without `nuevo_orden` is rejected
     * with 'Datos incompletos', one `int()` cannot convert fails, and any other
     * goes to the move.
     */
    method ReorderRequest(id: int, field: OrdenField, fault: Fault) returns (r: Result<(), Error>)
      requires Valid()
      modifies this
      ensures Valid()
      ensures field == Missing ==> r == Err(DatosIncompletos) && rows == old(rows) && writes == old(writes)
      ensures field == Malformed ==> r == Err(NotAnInteger) && rows == old(rows) && writes == old(writes)
      ensures field.Given? && r.Ok? ==> FindById(old(rows), id).Some? && rows == Move(old(rows), FindById(old(rows), id).value, field.n)
      ensures r.Err? ==> rows == old(rows)
    {
      match field
      case Missing =>
        return Err(DatosIncompletos);
      case Malformed =>
        return Err(NotAnInteger);
      case Given(n) =>
        r := MoveStop(id, n, fault);
    }

    /**
     * `eliminar_parada`: deletes the stop and lowers by one every stop of its
     * trip above it, in one step; an unknown stop or a failed commit changes
     * nothing.
     */
    method DeleteStop(id: int, fault: Fault) returns (r: Result<(), Error>)
      requires Valid()
      modifies this
      ensures Valid()
      ensures FindById(old(rows), id).None? ==> r == Err(NotFound) && rows == old(rows)
      ensures FindById(old(rows), id).Some? ==> (r.Ok? <==> fault == NoFault)
      ensures r.Ok? ==> FindById(old(rows), id).Some? && rows == Delete(old(rows), FindById(old(rows), id).value)
      ensures r.Err? ==> rows == old(rows)
    {
      var found := FindById(rows, id);
      if found.None? {
        return Err(NotFound);
      }
      if fault != NoFault {
        return Err(DatabaseError);
      }
      DeleteFacts(rows, found.value);
      rows := Delete(rows, found.value);
      r := Ok(());
    }

    /**
     * Insert a new stop at position `orden` and commit, then resort the trip.
     * A taken position makes the insert fail; a failed resort leaves the
     * committed insert in place.
     */
    method Insert(v: int, s: NewStop, orden: int, fault: Fault) returns (r: Result<int, Error>)
      requires Valid() && orden >= 0
      modifies this
      ensures Valid()
      ensures Taken(old(rows), v, orden) ==> r == Err(UniqueViolation) && rows == old(rows)
      ensures r.Ok? ==> AddWith(old(rows), v, s, orden) == Ok(rows) && r.value == NextId(old(rows))
      ensures r.Err? && !Taken(old(rows), v, orden) ==>
        r.error == DatabaseError && rows == old(rows) + [NewRow(old(rows), v, s, orden)]
      ensures !Taken(old(rows), v, orden) && (fault == NoFault || TripSize(old(rows), v) == 0) ==> r.Ok?
    {
      if Taken(rows, v, orden) {
        return Err(UniqueViolation);
      }
      var p := NewRow(rows, v, s, orden);
      AppendConsistent(rows, v, s, orden);
      AppendTripSize(rows, p, v);
      rows := rows + [p];
      var res := ResortTrip(v, fault);
      if res.Err? {
        return Err(res.error);
      }
      r := Ok(p.id);
    }

    /** `agregar_parada` as written: the new stop starts at 999. */
    method AddStop(v: int, s: NewStop, fault: Fault) returns (r: Result<int, Error>)
      requires Valid()
      modifies this
      ensures Valid()
      ensures Taken(old(rows), v, Placeholder) ==> r == Err(UniqueViolation) && rows == old(rows)
      ensures r.Ok? ==> Add(old(rows), v, s) == Ok(rows)
    {
      r := Insert(v, s, Placeholder, fault);
    }

    /** `agregar_parada` corrected: the new stop starts one past the trip's last position. */
    method AddStopFixed(v: int, s: NewStop, fault: Fault) returns (r: Result<int, Error>)
      requires Valid()
      modifies this
      ensures Valid()
      ensures r != Err(UniqueViolation)
      ensures r.Ok? ==> AddFixed(old(rows), v, s) == Ok(rows)
    {
      var o := MaxOrden(rows, v) + 1;
      AddFixedUnfold(rows, v, s, o);
      r := Insert(v, s, o, fault);
    }

    /**
     * One pass of the admin loop over `viajes[i]`: resort the trip when it has
     * more than one stop and count it; the fold over `viajes[..i + 1]` results.
     */
    method AdminPass(ghost snapshot: seq<Parada>, viajes: seq<int>, faults: seq<Fault>, i: nat, count: nat)
      returns (r: Result<nat, Error>)
      requires Valid() && Consistent(snapshot) && i < |viajes| == |faults|
      requires rows == ResortAll(snapshot, viajes[..i]) && count == CountResorted(snapshot, viajes[..i])
      modifies this
      ensures Valid()
      ensures r.Ok? <==> !Blocked(snapshot, viajes[i], faults[i])
      ensures r.Ok? ==> rows == ResortAll(snapshot, viajes[..i + 1]) && r.value == CountResorted(snapshot, viajes[..i + 1])
      ensures r.Err? ==> r.error == DatabaseError
    {
      var v := viajes[i];
      ResortAllStep(snapshot, viajes, i);
      if |TripIndices(rows, v)| > 1 {
        var res := ResortTrip(v, faults[i]);
        if res.Err? {
          return Err(res.error);
        }
        r := Ok(count + 1);
      } else {
        r := Ok(count);
      }
    }

    /**
     * `reordenar_todos_viajes`: resorts, and counts, every trip with more than
     * one stop; the first failure ends the loop.
     */
    method ResortAllTrips(viajes: seq<int>, faults: seq<Fault>) returns (r: Result<nat, Error>)
      requires Valid() && |faults| == |viajes|
      modifies this
      ensures Valid()
      ensures r.Ok? ==> rows == ResortAll(old(rows), viajes) && r.value == CountResorted(old(rows), viajes)
      ensures r.Ok? <==> forall i :: 0 <= i < |viajes| ==> !Blocked(old(rows), viajes[i], faults[i])
      ensures r.Err? ==> r.error == DatabaseError
    {
      ghost var snapshot := rows;
      var reordenados := 0;
      var i := 0;
      while i < |viajes|
        invariant 0 <= i <= |viajes|
        invariant Valid()
        invariant rows == ResortAll(snapshot, viajes[..i])
        invariant reordenados == CountResorted(snapshot, viajes[..i])
        invariant Clear(snapshot, viajes[..i], faults[..i])
      {
        var res := AdminPass(snapshot, viajes, faults, i, reordenados);
        if res.Err? {
          ClearMeans(snapshot, viajes, faults);
          return Err(res.error);
        }
        reordenados := res.value;
        ClearStep(snapshot, viajes, faults, i);
        i := i + 1;
      }
      assert viajes[..i] == viajes && faults[..i] == faults;
      ClearMeans(snapshot, viajes, faults);
      r := Ok(reordenados);
    }
  }
}
