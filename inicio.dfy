/**
 * The index page: each trip, newest first as queried, with its status relative
 * to today and a preview of its stops. Dates are day numbers and `hoy` is a
 * parameter.
 */
module Inicio {
  import opened Wrappers
  import opened Stops

  /** A trip as the index page reads it; a date left unset is `None`. */
  datatype Viaje = Viaje(id: int, nombre: string, inicio: Option<int>, fin: Option<int>)

  datatype Estado = Futuro | Activo | Pasado

  /** The trip's status: not started yet, under way, or over (also when a date is missing). */
  function EstadoDe(v: Viaje, hoy: int): Estado
  {
    if v.inicio.Some? && v.fin.Some? then
      if v.inicio.value > hoy then Futuro
      else if v.fin.value >= hoy then Activo
      else Pasado
    else Pasado
  }

  /** The three statuses, each stated outright. */
  lemma EstadoMeans(v: Viaje, hoy: int)
    ensures EstadoDe(v, hoy) == Futuro <==> v.inicio.Some? && v.fin.Some? && v.inicio.value > hoy
    ensures EstadoDe(v, hoy) == Activo <==> v.inicio.Some? && v.fin.Some? && v.inicio.value <= hoy <= v.fin.value
    ensures EstadoDe(v, hoy) == Pasado <==>
      v.inicio.None? || v.fin.None? || (v.inicio.value <= hoy && v.fin.value < hoy)
  {
  }

  /** `paradas_info`: the stop count, the first three stops, and how many more there are. */
  datatype InfoParadas = InfoParadas(total: nat, primerasTres: seq<Parada>, tieneMas: bool, extras: nat)

  function Resumen(ps: seq<Parada>): InfoParadas
  {
    if ps == [] then InfoParadas(0, [], false, 0)
    else InfoParadas(|ps|, if |ps| <= 3 then ps else ps[..3], |ps| > 3, if |ps| > 3 then |ps| - 3 else 0)
  }

  /**
   * The preview shows the first `min(3, total)` stops, flags more exactly when
   * there are over three, and the shown and the extra stops add up to the total.
   */
  lemma ResumenMeans(ps: seq<Parada>)
    ensures var r := Resumen(ps);
      && r.total == |ps|
      && |r.primerasTres| == (if |ps| < 3 then |ps| else 3)
      && r.primerasTres == ps[..|r.primerasTres|]
      && (r.tieneMas <==> |ps| > 3)
      && (r.extras > 0 <==> r.tieneMas)
      && |r.primerasTres| + r.extras == r.total
  {
    assert ps[..|ps|] == ps;
  }

  /** `viaje.paradas`: the trip's stops in `orden` order. */
  function ParadasDe(rows: seq<Parada>, v: int): seq<Parada>
  {
    var s := Sort(rows, ByOrden, TripIndices(rows, v));
    seq(|s|, i requires 0 <= i < |s| => rows[s[i]])
  }

  /** In a consistent table, the stops listed are exactly the trip's, in strictly ascending `orden`. */
  lemma ParadasDeMeans(rows: seq<Parada>, v: int)
    requires Consistent(rows)
    ensures var ps := ParadasDe(rows, v);
      && |ps| == TripSize(rows, v)
      && (forall p :: p in ps <==> p in rows && p.viajeId == v)
      && (forall i, j :: 0 <= i < j < |ps| ==> ps[i].orden < ps[j].orden)
  {
    ParadasDeMembers(rows, v);
    ParadasDeAscending(rows, v);
  }

  lemma ParadasDeMembers(rows: seq<Parada>, v: int)
    ensures var ps := ParadasDe(rows, v);
      forall p :: p in ps <==> p in rows && p.viajeId == v
  {
    var t := TripIndices(rows, v);
    var s := Sort(rows, ByOrden, t);
    var ps := ParadasDe(rows, v);
    forall p ensures p in ps <==> p in rows && p.viajeId == v {
      if p in ps {
        var i :| 0 <= i < |ps| && ps[i] == p;
        assert s[i] in multiset(t);
      }
      if p in rows && p.viajeId == v {
        var k :| 0 <= k < |rows| && rows[k] == p;
        assert k in multiset(s);
        var i :| 0 <= i < |s| && s[i] == k;
        assert ps[i] == p;
      }
    }
  }

  lemma ParadasDeAscending(rows: seq<Parada>, v: int)
    requires Consistent(rows)
    ensures var ps := ParadasDe(rows, v);
      forall i, j :: 0 <= i < j < |ps| ==> ps[i].orden < ps[j].orden
  {
    var t := TripIndices(rows, v);
    TripComparable(rows, ByOrden, v);
    TripIndicesDistinct(rows, v);
    SortSorted(rows, ByOrden, t);
  }

  /** One entry of the list the page renders. */
  datatype ViajeInfo = ViajeInfo(viaje: Viaje, estado: Estado, paradas: InfoParadas)

  function InfoDe(v: Viaje, rows: seq<Parada>, hoy: int): ViajeInfo
  {
    ViajeInfo(v, EstadoDe(v, hoy), Resumen(ParadasDe(rows, v.id)))
  }

  /** The entry of each trip, given the table and today. */
  function InfoFor(rows: seq<Parada>, hoy: int): Viaje -> ViajeInfo
  {
    v => InfoDe(v, rows, hoy)
  }

  /** `f` applied to each element, in order. */
  function MapSeq<A, B>(xs: seq<A>, f: A -> B): seq<B>
  {
    if xs == [] then [] else MapSeq(xs[..|xs| - 1], f) + [f(xs[|xs| - 1])]
  }

  lemma {:induction false} MapSeqMeans<A, B>(xs: seq<A>, f: A -> B)
    ensures |MapSeq(xs, f)| == |xs|
    ensures forall i :: 0 <= i < |xs| ==> MapSeq(xs, f)[i] == f(xs[i])
  {
    if xs != [] {
      var n := |xs| - 1;
      MapSeqMeans(xs[..n], f);
      assert forall i :: 0 <= i < n ==> xs[..n][i] == xs[i];
    }
  }

  /** The entries for a list of trips. */
  function Entries(vs: seq<Viaje>, rows: seq<Parada>, hoy: int): seq<ViajeInfo>
  {
    MapSeq(vs, InfoFor(rows, hoy))
  }

  /** Exactly one entry per trip, in the order the trips were queried. */
  lemma EntriesMeans(vs: seq<Viaje>, rows: seq<Parada>, hoy: int)
    ensures |Entries(vs, rows, hoy)| == |vs|
    ensures forall i :: 0 <= i < |vs| ==> Entries(vs, rows, hoy)[i] == InfoDe(vs[i], rows, hoy)
  {
    MapSeqMeans(vs, InfoFor(rows, hoy));
  }

  /** The loop body of `index`: the status by reassignment from 'pasado', then the stop preview. */
  method Entry(viaje: Viaje, rows: seq<Parada>, hoy: int) returns (e: ViajeInfo)
    ensures e == InfoDe(viaje, rows, hoy)
  {
    var estado := Pasado;
    if viaje.inicio.Some? && viaje.fin.Some? {
      if viaje.inicio.value > hoy {
        estado := Futuro;
      } else if viaje.fin.value >= hoy {
        estado := Activo;
      } else {
        estado := Pasado;
      }
    }
    var ps := ParadasDe(rows, viaje.id);
    var info := InfoParadas(
      if ps != [] then |ps| else 0,
      if ps != [] then (if |ps| <= 3 then ps else ps[..3]) else [],
      if ps != [] then |ps| > 3 else false,
      if ps != [] && |ps| > 3 then |ps| - 3 else 0);
    assert estado == EstadoDe(viaje, hoy);
    assert info == Resumen(ps);
    e := ViajeInfo(viaje, estado, info);
  }

  /** `index`: the loop appending one entry per trip, in the order queried. */
  method Index(viajes: seq<Viaje>, rows: seq<Parada>, hoy: int) returns (r: seq<ViajeInfo>)
    ensures r == Entries(viajes, rows, hoy)
  {
    r := [];
    for i := 0 to |viajes|
      invariant r == Entries(viajes[..i], rows, hoy)
    {
      var e := Entry(viajes[i], rows, hoy);
      assert viajes[..i + 1][..i] == viajes[..i];
      r := r + [e];
    }
    assert viajes[..|viajes|] == viajes;
  }
}
