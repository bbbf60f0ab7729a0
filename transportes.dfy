/**
 * Transports of a trip: grouping by type, the itinerary with travel and
 * connection times, the connections that are too tight, the statistics
 * counts and the completeness check. The transports come as queried, ordered
 * by departure date and time. Dates are day numbers, times minutes after
 * midnight, and an instant is `fecha * 1440 + hora` minutes.
 */
module Transportes {
  import opened Wrappers
  import opened Text
  import opened Grouping

  type Minute = m: int | 0 <= m < 1440

  /** A transport; an empty text stands for a field left empty or None. */
  datatype Transporte = Transporte(
    id: int, viajeId: int, tipo: string, origen: string, destino: string,
    codigoReserva: string,
    fechaSalida: int, horaSalida: Option<Minute>,
    fechaLlegada: int, horaLlegada: Option<Minute>,
    aerolinea: string, numeroVuelo: string, asiento: string)

  // ---------------------------------------------------------------- grouping

  function Tipo(t: Transporte): string
  {
    t.tipo
  }

  /** The fixed display order of the known transport types. */
  const TiposOrdenados: seq<string> := ["vuelo", "tren", "bus", "ferry", "taxi", "transfer", "otros"]

  /**
   * `agrupar_transportes_por_tipo`: one group per type, in query order; known
   * types in their fixed order, then the others ascending.
   */
  function Agrupados(ts: seq<Transporte>): seq<(string, seq<Transporte>)>
  {
    ByKey(ts, Tipo, TiposOrdenados)
  }

  /** The append loop into a `defaultdict(list)` and the two loops filling the `OrderedDict`. */
  method AgruparPorTipo(ts: seq<Transporte>) returns (entries: seq<(string, seq<Transporte>)>)
    ensures entries == Agrupados(ts)
  {
    entries := GroupArranged(ts, Tipo, TiposOrdenados);
  }

  lemma AgrupadosKeys(ts: seq<Transporte>)
    ensures var g, ks := Agrupados(ts), Arranged(KeysOf(ts, Tipo), TiposOrdenados);
      |g| == |ks| && forall i :: 0 <= i < |g| ==> g[i].0 == ks[i]
  {
  }

  /** Every transport sits in exactly one group, the one of its type. */
  lemma AgrupadosOnce(ts: seq<Transporte>, x: Transporte)
    requires x in ts
    ensures var g := Agrupados(ts);
      && (exists i :: 0 <= i < |g| && g[i].0 == x.tipo)
      && (forall i :: 0 <= i < |g| ==> (x in g[i].1 <==> g[i].0 == x.tipo))
  {
    assert Unique(TiposOrdenados);
    ByKeyOnce(ts, Tipo, TiposOrdenados, x);
    var g := Agrupados(ts);
    var j :| 0 <= j < |g| && g[j].0 == Tipo(x);
    assert g[j].0 == x.tipo;
  }

  /** The known types that occur come first, in priority order; every other type follows, ascending. */
  lemma AgrupadosKeyOrder(ts: seq<Transporte>)
    ensures var g, m := Agrupados(ts), |Present(TiposOrdenados, KeysOf(ts, Tipo))|;
      && m <= |g|
      && (forall i :: 0 <= i < m ==> g[i].0 == Present(TiposOrdenados, KeysOf(ts, Tipo))[i])
      && (forall i :: m <= i < |g| ==> g[i].0 !in TiposOrdenados)
      && (forall i, j :: m <= i < j < |g| ==> Less(g[i].0, g[j].0))
  {
    ByKeyKeyOrder(ts, Tipo, TiposOrdenados);
  }

  // ---------------------------------------------------------------- itinerary

  /** `datetime.combine(fecha, hora)` in minutes. */
  function Instante(fecha: int, hora: Minute): int
  {
    fecha * 1440 + hora
  }

  /** A difference of instants, with one day added when the later one comes out earlier. */
  function Rollover(desde: int, hasta: int): int
  {
    if hasta < desde then hasta + 1440 - desde else hasta - desde
  }

  /** `tiempo_viaje`: only when both times are known. */
  function TiempoViaje(t: Transporte): Option<int>
  {
    if t.horaSalida.Some? && t.horaLlegada.Some? then
      Some(Rollover(Instante(t.fechaSalida, t.horaSalida.value), Instante(t.fechaLlegada, t.horaLlegada.value)))
    else None
  }

  /** `tiempo_conexion` from `t` to the next transport `s`: only when `t`'s arrival and `s`'s departure times are known. */
  function TiempoConexion(t: Transporte, s: Transporte): Option<int>
  {
    if t.horaLlegada.Some? && s.horaSalida.Some? then
      Some(Rollover(Instante(t.fechaLlegada, t.horaLlegada.value), Instante(s.fechaSalida, s.horaSalida.value)))
    else None
  }

  /** One itinerary entry. Durations are in minutes. */
  datatype Entrada = Entrada(
    transporte: Transporte, tiempoViaje: Option<int>, tiempoConexion: Option<int>,
    siguiente: Option<Transporte>, esUltimo: bool)

  /** The entry for position `i` of the queried list. */
  function EntradaEn(ts: seq<Transporte>, i: nat): Entrada
    requires i < |ts|
  {
    var ultimo := i == |ts| - 1;
    Entrada(ts[i], TiempoViaje(ts[i]),
            if ultimo then None else TiempoConexion(ts[i], ts[i + 1]),
            if ultimo then None else Some(ts[i + 1]),
            ultimo)
  }

  function Itinerario(ts: seq<Transporte>): seq<Entrada>
  {
    seq(|ts|, i requires 0 <= i < |ts| => EntradaEn(ts, i))
  }

  /** `obtener_itinerario_transportes`: the loop appending one entry per transport. */
  method ObtenerItinerario(ts: seq<Transporte>) returns (it: seq<Entrada>)
    ensures it == Itinerario(ts)
  {
    it := [];
    for i := 0 to |ts|
      invariant |it| == i && forall j :: 0 <= j < i ==> it[j] == EntradaEn(ts, j)
    {
      var t := ts[i];
      var viaje: Option<int> := None;
      if t.horaSalida.Some? && t.horaLlegada.Some? {
        var salida := Instante(t.fechaSalida, t.horaSalida.value);
        var llegada := Instante(t.fechaLlegada, t.horaLlegada.value);
        if llegada < salida {
          llegada := llegada + 1440;
        }
        viaje := Some(llegada - salida);
      }
      var conexion: Option<int> := None;
      var siguiente: Option<Transporte> := None;
      if i < |ts| - 1 {
        var s := ts[i + 1];
        siguiente := Some(s);
        if t.horaLlegada.Some? && s.horaSalida.Some? {
          var llegadaActual := Instante(t.fechaLlegada, t.horaLlegada.value);
          var salidaSiguiente := Instante(s.fechaSalida, s.horaSalida.value);
          if salidaSiguiente < llegadaActual {
            salidaSiguiente := salidaSiguiente + 1440;
          }
          conexion := Some(salidaSiguiente - llegadaActual);
        }
      }
      it := it + [Entrada(t, viaje, conexion, siguiente, i == |ts| - 1)];
    }
  }

  /**
   * One entry per transport, in order; each points to the next transport and
   * only the last is marked last and has no successor or connection.
   */
  lemma ItinerarioShape(ts: seq<Transporte>)
    ensures var it := Itinerario(ts);
      && |it| == |ts|
      && (forall i :: 0 <= i < |it| ==> it[i].transporte == ts[i])
      && (forall i :: 0 <= i < |it| ==> (it[i].esUltimo <==> i == |ts| - 1))
      && (forall i :: 0 <= i < |it| ==> (it[i].siguiente.None? <==> it[i].esUltimo))
      && (forall i :: 0 <= i < |it| - 1 ==> it[i].siguiente == Some(ts[i + 1]))
      && (forall i :: 0 <= i < |it| && it[i].esUltimo ==> it[i].tiempoConexion.None?)
  {
  }

  /**
   * A travel time exists exactly when both times are known. It is arrival minus
   * departure, one day more when the arrival comes out earlier; a transport
   * that arrives on or after its departure day never gets a negative time.
   */
  lemma TiempoViajeMeans(t: Transporte)
    ensures TiempoViaje(t).Some? <==> t.horaSalida.Some? && t.horaLlegada.Some?
    ensures TiempoViaje(t).Some? ==>
      var d := Instante(t.fechaLlegada, t.horaLlegada.value) - Instante(t.fechaSalida, t.horaSalida.value);
      && TiempoViaje(t).value == (if d < 0 then d + 1440 else d)
      && (t.fechaLlegada >= t.fechaSalida ==> 0 <= TiempoViaje(t).value)
      && (t.fechaLlegada == t.fechaSalida ==> TiempoViaje(t).value < 1440)
  {
  }

  /**
   * A connection time exists exactly when the arrival time and the next
   * departure time are known; it is the gap between them, plus one day when
   * the departure comes out earlier. It is only guaranteed non-negative when
   * the next departure is not on an earlier day than the arrival; a departure
   * on an earlier day can still leave it negative.
   */
  lemma TiempoConexionMeans(t: Transporte, s: Transporte)
    ensures TiempoConexion(t, s).Some? <==> t.horaLlegada.Some? && s.horaSalida.Some?
    ensures TiempoConexion(t, s).Some? ==>
      var d := Instante(s.fechaSalida, s.horaSalida.value) - Instante(t.fechaLlegada, t.horaLlegada.value);
      && TiempoConexion(t, s).value == (if d < 0 then d + 1440 else d)
      && (s.fechaSalida >= t.fechaLlegada ==> 0 <= TiempoConexion(t, s).value)
  {
  }

  // ---------------------------------------------------------------- critical connections

  /** One reported connection. */
  datatype Conexion = Conexion(
    actual: Transporte, siguiente: Option<Transporte>, tiempo: int, minimo: int, diferencia: int)

  /** `item['tiempo_conexion'] and item['tiempo_conexion'] < minimo`: a zero timedelta is false. */
  predicate EsCritica(e: Entrada, minimo: int)
  {
    e.tiempoConexion.Some? && e.tiempoConexion.value != 0 && e.tiempoConexion.value < minimo
  }

  function Reporte(e: Entrada, minimo: int): Conexion
    requires e.tiempoConexion.Some?
  {
    Conexion(e.transporte, e.siguiente, e.tiempoConexion.value, minimo, minimo - e.tiempoConexion.value)
  }

  /** The critical connections of an itinerary, in itinerary order. */
  function Criticas(it: seq<Entrada>, minimo: int): (r: seq<Conexion>)
    ensures |r| <= |it|
  {
    if it == [] then []
    else
      var n := |it| - 1;
      Criticas(it[..n], minimo) + (if EsCritica(it[n], minimo) then [Reporte(it[n], minimo)] else [])
  }

  /** `verificar_conexiones_criticas`: the itinerary, then one report per critical entry. */
  method VerificarConexionesCriticas(ts: seq<Transporte>, minimo: int) returns (cs: seq<Conexion>)
    ensures cs == Criticas(Itinerario(ts), minimo)
  {
    var it := ObtenerItinerario(ts);
    cs := [];
    for i := 0 to |it|
      invariant cs == Criticas(it[..i], minimo)
    {
      assert it[..i + 1][..i] == it[..i];
      var e := it[i];
      if e.tiempoConexion.Some? && e.tiempoConexion.value != 0 && e.tiempoConexion.value < minimo {
        cs := cs + [Conexion(e.transporte, e.siguiente, e.tiempoConexion.value, minimo, minimo - e.tiempoConexion.value)];
      }
    }
    assert it[..|it|] == it;
  }

  /** The default minimum connection: one hour. */
  const MinimoConexion: int := 60

  /**
   * The reports are exactly those of the critical entries: each has a non-zero
   * connection shorter than the minimum, and a positive `diferencia` that
   * makes up the minimum. A zero-minute connection is never reported.
   */
  lemma {:induction false} CriticasMeans(it: seq<Entrada>, minimo: int)
    ensures forall c :: c in Criticas(it, minimo) <==> exists e :: e in it && EsCritica(e, minimo) && c == Reporte(e, minimo)
    ensures forall c :: c in Criticas(it, minimo) ==>
      c.tiempo != 0 && c.tiempo < minimo && c.diferencia > 0 && c.tiempo + c.diferencia == minimo
    ensures |Criticas(it, minimo)| == CountIf(it, e => EsCritica(e, minimo))
  {
    if it != [] {
      var n := |it| - 1;
      assert it == it[..n] + [it[n]];
      CriticasMeans(it[..n], minimo);
    }
  }

  // ---------------------------------------------------------------- statistics and validation

  function ConHorarios(t: Transporte): bool
  {
    t.horaSalida.Some? && t.horaLlegada.Some?
  }

  function ConCodigo(t: Transporte): bool
  {
    t.codigoReserva != ""
  }

  function ConAsiento(t: Transporte): bool
  {
    t.asiento != ""
  }

  datatype EstadisticasTransporte = EstadisticasTransporte(
    total: nat, porTipo: map<string, nat>,
    conHorarios: nat, conCodigo: nat, conAsiento: nat, conexionesCriticas: nat)

  /** `obtener_estadisticas_transportes`, without the percentage. */
  method ObtenerEstadisticas(ts: seq<Transporte>) returns (e: EstadisticasTransporte)
    ensures e.total == |ts| && Counted(e.porTipo, ts, Tipo)
    ensures e.conHorarios == CountIf(ts, ConHorarios)
    ensures e.conCodigo == CountIf(ts, ConCodigo) && e.conAsiento == CountIf(ts, ConAsiento)
    ensures e.conexionesCriticas == |Criticas(Itinerario(ts), MinimoConexion)|
  {
    var tipos := CountByKey(ts, Tipo);
    var criticas := VerificarConexionesCriticas(ts, MinimoConexion);
    e := EstadisticasTransporte(|ts|, tipos, CountIf(ts, ConHorarios), CountIf(ts, ConCodigo), CountIf(ts, ConAsiento),
                                |criticas|);
  }

  /** The per-type counts add up to the total, and no count of complete data exceeds it. */
  lemma EstadisticasFacts(ts: seq<Transporte>, porTipo: map<string, nat>)
    requires Counted(porTipo, ts, Tipo)
    ensures SumCounts(porTipo, KeysOf(ts, Tipo)) == |ts|
    ensures |Criticas(Itinerario(ts), MinimoConexion)| < |ts| || ts == []
  {
    CountsAddUp(porTipo, ts, Tipo);
    if ts != [] {
      CriticasAtMostLinks(ts, MinimoConexion);
    }
  }

  /** Only entries with a successor can be critical, so there are fewer reports than transports. */
  lemma CriticasAtMostLinks(ts: seq<Transporte>, minimo: int)
    requires ts != []
    ensures |Criticas(Itinerario(ts), minimo)| <= |ts| - 1
  {
    var it := Itinerario(ts);
    var n := |it| - 1;
    assert !EsCritica(it[n], minimo);
    assert it[..n + 1] == it;
  }

  /** The advice `_generar_recomendaciones_transporte` produces, with its counts. */
  datatype Recomendacion =
    | AgregarTransportes
    | AgregarCodigos(n: nat)
    | CompletarHorarios(n: nat)
    | RevisarConexiones(n: nat)

  function SinCodigo(t: Transporte): bool
  {
    t.codigoReserva == ""
  }

  function SinHorarios(t: Transporte): bool
  {
    t.horaSalida.None? || t.horaLlegada.None?
  }

  function SinDetalles(t: Transporte): bool
  {
    t.aerolinea == "" && t.numeroVuelo == ""
  }

  function Recomendaciones(ts: seq<Transporte>, criticas: seq<Conexion>): seq<Recomendacion>
  {
    var sinCodigo, sinHorarios := Where(ts, SinCodigo), Where(ts, SinHorarios);
    (if ts == [] then [AgregarTransportes] else [])
    + (if sinCodigo != [] then [AgregarCodigos(|sinCodigo|)] else [])
    + (if sinHorarios != [] then [CompletarHorarios(|sinHorarios|)] else [])
    + (if criticas != [] then [RevisarConexiones(|criticas|)] else [])
  }

  datatype ValidacionTransporte = ValidacionTransporte(
    completo: bool, total: nat, sinCodigo: nat, sinHorarios: nat, sinDetalles: nat, conexionesCriticas: nat,
    problematicos: seq<Transporte>, recomendaciones: seq<Recomendacion>)

  /** `validar_transportes_para_viaje`, with the one-hour minimum. */
  function Validar(ts: seq<Transporte>): ValidacionTransporte
  {
    var criticas := Criticas(Itinerario(ts), MinimoConexion);
    var sinCodigo, sinHorarios := Where(ts, SinCodigo), Where(ts, SinHorarios);
    ValidacionTransporte(
      |sinCodigo| == 0 && |sinHorarios| == 0 && |criticas| == 0,
      |ts|, |sinCodigo|, |sinHorarios|, |Where(ts, SinDetalles)|, |criticas|,
      sinCodigo + sinHorarios, Recomendaciones(ts, criticas))
  }

  /**
   * The transports are complete exactly when every one has a booking code and
   * both times, and no connection is tight; then no advice is given unless the
   * list is empty. Missing company details never count against completeness.
   */
  lemma ValidarMeans(ts: seq<Transporte>)
    ensures var r := Validar(ts);
      && (r.completo <==>
            (forall t :: t in ts ==> t.codigoReserva != "" && t.horaSalida.Some? && t.horaLlegada.Some?)
            && Criticas(Itinerario(ts), MinimoConexion) == [])
      && (r.completo ==> r.recomendaciones == (if ts == [] then [AgregarTransportes] else []))
      && (forall t :: t in r.problematicos <==> t in ts && (SinCodigo(t) || SinHorarios(t)))
  {
    var r, sc, sh := Validar(ts), Where(ts, SinCodigo), Where(ts, SinHorarios);
    WhereExactly(ts, SinCodigo);
    WhereExactly(ts, SinHorarios);
    assert r.problematicos == sc + sh;
    if sc != [] {
      assert sc[0] in sc;
    }
    if sh != [] {
      assert sh[0] in sh;
    }
  }
}
