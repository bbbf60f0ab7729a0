/**
 * Activities of a trip: creation (how `hora` is normalised), the completion
 * flag, grouping by destination for display, and the counts shown on the
 * statistics panel.
 */
module Actividades {
  import opened Wrappers
  import opened Text
  import opened Grouping

  /** A time of day in minutes after midnight, the range of a `datetime.time` to the minute. */
  type Minute = m: int | 0 <= m < 1440

  /** An activity; `fecha` is a day number and an empty `destino` stands for a missing one. */
  datatype Actividad = Actividad(
    id: int, viajeId: int, destino: string, nombre: string,
    fecha: int, hora: Option<Minute>, completada: bool)

  datatype Error =
    | NotFound      // 'Actividad no encontrada'
    | BadTime       // `strptime` could not read the `hora` text
    | DatabaseError // the commit failed and the session was rolled back

  /** What `crear_actividad` may receive as `hora`: nothing, a text, or an already built time. */
  datatype HoraArg = NoHora | HoraText(text: string) | HoraTime(t: Minute)

  /**
   * The stored `hora`: a text that is not blank is parsed (a parse failure is an
   * error); anything else, a time object included, becomes None.
   */
  function NormalizarHora(h: HoraArg, parse: string -> Option<Minute>): Result<Option<Minute>, Error>
  {
    if h.HoraText? && h.text != [] && Strip(h.text) != [] then
      (match parse(h.text)
       case Some(m) => Ok(Some(m))
       case None => Err(BadTime))
    else Ok(None)
  }

  /** `crear_actividad` before the insert: the new row, which always starts not completed. */
  function Crear(id: int, viajeId: int, nombre: string, fecha: int, destino: string, h: HoraArg, parse: string -> Option<Minute>)
    : Result<Actividad, Error>
  {
    match NormalizarHora(h, parse)
    case Ok(hora) => Ok(Actividad(id, viajeId, destino, nombre, fecha, hora, false))
    case Err(e) => Err(e)
  }

  /**
   * A missing or blank `hora`, or one that is not text, is stored as None; a
   * readable one is stored as read; an unreadable one fails the creation. A new
   * activity is never completed.
   */
  lemma CrearFacts(id: int, viajeId: int, nombre: string, fecha: int, destino: string, h: HoraArg, parse: string -> Option<Minute>)
    ensures var r := Crear(id, viajeId, nombre, fecha, destino, h, parse);
      && (r.Ok? ==> !r.value.completada && r.value.fecha == fecha && r.value.destino == destino)
      && ((h.NoHora? || h.HoraTime? || (h.HoraText? && IsBlank(h.text))) ==> r.Ok? && r.value.hora.None?)
      && (h.HoraText? && !IsBlank(h.text) ==>
            (r.Ok? <==> parse(h.text).Some?) && (r.Ok? ==> r.value.hora == parse(h.text)))
  {
    if h.HoraText? {
      StripEmptyIffBlank(h.text);
    }
  }

  // ---------------------------------------------------------------- completion

  /** The new `completada`: toggled when no value is given, the given value otherwise. */
  function Completado(actual: bool, pedido: Option<bool>): (r: bool)
    ensures pedido.None? ==> r != actual
    ensures pedido.Some? ==> r == pedido.value
  {
    if pedido.None? then !actual else pedido.value
  }

  /** `query.get(id)`: the position of the activity with that id. */
  function Find(items: seq<Actividad>, id: int): (r: Option<nat>)
    ensures r.Some? ==> r.value < |items| && items[r.value].id == id
    ensures r.None? ==> forall k :: 0 <= k < |items| ==> items[k].id != id
  {
    if items == [] then None
    else if items[0].id == id then Some(0)
    else match Find(items[1..], id)
      case Some(k) => Some(k + 1)
      case None => None
  }

  class ActividadTable {
    var items: seq<Actividad>

    constructor (initial: seq<Actividad>)
      ensures items == initial
    {
      items := initial;
    }

    /**
     * `completar_actividad`: an unknown id is an error; otherwise the flag is
     * set or toggled and committed, and the stored value is returned. A failed
     * commit rolls back.
     */
    method Completar(id: int, pedido: Option<bool>, commitFails: bool) returns (r: Result<bool, Error>)
      modifies this
      ensures Find(old(items), id).None? ==> r == Err(NotFound) && items == old(items)
      ensures Find(old(items), id).Some? && commitFails ==> r == Err(DatabaseError) && items == old(items)
      ensures Find(old(items), id).Some? && !commitFails ==>
        var k := Find(old(items), id).value;
        && r == Ok(Completado(old(items)[k].completada, pedido))
        && items == old(items)[k := old(items)[k].(completada := r.value)]
        && items[k].completada == r.value
    {
      var found := Find(items, id);
      if found.None? {
        return Err(NotFound);
      }
      if commitFails {
        return Err(DatabaseError);
      }
      var k := found.value;
      var nuevo := if pedido.None? then !items[k].completada else pedido.value;
      items := items[k := items[k].(completada := nuevo)];
      r := Ok(items[k].completada);
    }
  }

  // ---------------------------------------------------------------- grouping

  /** `actividad.destino or 'general'`. */
  function DestinoKey(a: Actividad): string
  {
    if a.destino == "" then "general" else a.destino
  }

  /** The sort key `(fecha, hora or 00:00)` as one number of minutes. */
  function Rank(a: Actividad): int
  {
    a.fecha * 1440 + (if a.hora.Some? then a.hora.value else 0)
  }

  function HoraOrMidnight(a: Actividad): int
  {
    if a.hora.Some? then a.hora.value else 0
  }

  /** Comparing ranks is comparing the pairs `(fecha, hora or 00:00)` lexicographically. */
  lemma RankIsLexicographic(a: Actividad, b: Actividad)
    ensures Rank(a) <= Rank(b) <==>
      a.fecha < b.fecha || (a.fecha == b.fecha && HoraOrMidnight(a) <= HoraOrMidnight(b))
  {
    var ha, hb := HoraOrMidnight(a), HoraOrMidnight(b);
    assert Rank(a) == a.fecha * 1440 + ha && Rank(b) == b.fecha * 1440 + hb;
    if a.fecha < b.fecha {
      assert a.fecha * 1440 <= (b.fecha - 1) * 1440;
    } else if a.fecha > b.fecha {
      assert b.fecha * 1440 <= (a.fecha - 1) * 1440;
    }
  }

  const GeneralFirst: seq<string> := ["general"]

  /**
   * `agrupar_actividades_por_destino`: one group per destination ('general'
   * for none), each stably sorted by `(fecha, hora)`, 'general' first and the
   * other destinations in ascending order.
   */
  function Agrupadas(acts: seq<Actividad>): seq<(string, seq<Actividad>)>
  {
    var ks := Arranged(KeysOf(acts, DestinoKey), GeneralFirst);
    seq(|ks|, i requires 0 <= i < |ks| => (ks[i], SortBy(Members(acts, DestinoKey, ks[i]), Rank)))
  }

  /** The append loop, the in-place sort of each list, and the ordered dictionary. */
  method AgruparPorDestino(acts: seq<Actividad>) returns (entries: seq<(string, seq<Actividad>)>)
    ensures entries == Agrupadas(acts)
  {
    var keys, groups := Group(acts, DestinoKey);
    groups := SortGroups(acts, DestinoKey, Rank, keys, groups);
    entries := Arrange(keys, groups, GeneralFirst);
  }

  /** Every activity lands in exactly one group: the one of its destination. */
  lemma AgrupadasOnce(acts: seq<Actividad>, x: Actividad)
    requires x in acts
    ensures var g := Agrupadas(acts);
      && (exists i :: 0 <= i < |g| && g[i].0 == DestinoKey(x))
      && (forall i :: 0 <= i < |g| ==> (x in g[i].1 <==> g[i].0 == DestinoKey(x)))
  {
    var keys := KeysOf(acts, DestinoKey);
    var ks := Arranged(keys, GeneralFirst);
    var g := Agrupadas(acts);
    KeysOfExactly(acts, DestinoKey);
    ArrangedKeys(keys, GeneralFirst);
    assert DestinoKey(x) in ks;
    var j :| 0 <= j < |ks| && ks[j] == DestinoKey(x);
    assert g[j].0 == DestinoKey(x);
    forall i | 0 <= i < |g| ensures x in g[i].1 <==> g[i].0 == DestinoKey(x) {
      var m := Members(acts, DestinoKey, ks[i]);
      MembersExactly(acts, DestinoKey, ks[i]);
      assert x in g[i].1 <==> x in multiset(m);
    }
  }

  lemma AgrupadasKeys(acts: seq<Actividad>)
    ensures var g, ks := Agrupadas(acts), Arranged(KeysOf(acts, DestinoKey), GeneralFirst);
      |g| == |ks| && forall i :: 0 <= i < |g| ==> g[i].0 == ks[i]
  {
  }

  lemma GeneralFirstHead(keys: seq<string>)
    requires Unique(keys)
    ensures var ks, m := Arranged(keys, GeneralFirst), if "general" in keys then 1 else 0;
      && m == |Present(GeneralFirst, keys)| && m <= |ks|
      && (m == 1 ==> ks[0] == "general")
      && (forall i :: m <= i < |ks| ==> ks[i] != "general")
  {
    ArrangedOrder(keys, GeneralFirst);
    assert GeneralFirst[1..] == [];
    assert Present(GeneralFirst, keys) == if "general" in keys then ["general"] else [];
  }

  /** 'general', when present, is the first group; the other destinations follow in ascending order. */
  lemma AgrupadasKeyOrder(acts: seq<Actividad>)
    ensures var g := Agrupadas(acts);
      var m := if "general" in KeysOf(acts, DestinoKey) then 1 else 0;
      && m <= |g|
      && (m == 1 ==> g[0].0 == "general")
      && (forall i :: m <= i < |g| ==> g[i].0 != "general")
      && (forall i, j :: m <= i < j < |g| ==> Less(g[i].0, g[j].0))
  {
    AgrupadasKeys(acts);
    KeysOfExactly(acts, DestinoKey);
    GeneralFirstHead(KeysOf(acts, DestinoKey));
    ArrangedOrder(KeysOf(acts, DestinoKey), GeneralFirst);
  }

  /** Each group is sorted by `(fecha, hora)`, and activities with equal keys keep their input order. */
  lemma AgrupadasSorted(acts: seq<Actividad>, i: nat, v: int)
    requires i < |Agrupadas(acts)|
    ensures var g := Agrupadas(acts);
      && SortedBy(g[i].1, Rank)
      && OfRank(g[i].1, Rank, v) == OfRank(Members(acts, DestinoKey, g[i].0), Rank, v)
  {
    var g := Agrupadas(acts);
    SortBySorted(Members(acts, DestinoKey, g[i].0), Rank);
    SortByStable(Members(acts, DestinoKey, g[i].0), Rank, v);
  }

  // ---------------------------------------------------------------- statistics

  function Done(a: Actividad): bool
  {
    a.completada
  }

  function Pending(a: Actividad): bool
  {
    !a.completada
  }

  function One(a: Actividad): int
  {
    1
  }

  datatype Conteo = Conteo(total: nat, completadas: nat)

  datatype Estadisticas = Estadisticas(total: nat, completadas: nat, pendientes: int, porDestino: map<string, Conteo>)

  /** The entry `por_destino[k]` describes: destination `k`'s activities and how many are completed. */
  function ConteoDe(xs: seq<Actividad>, k: string): Conteo
  {
    var m := Members(xs, DestinoKey, k);
    Conteo(|m|, CountIf(m, Done))
  }

  lemma ConteoDeSnoc(acts: seq<Actividad>, i: nat, k: string)
    requires i < |acts|
    ensures ConteoDe(acts[..i + 1], k)
         == if DestinoKey(acts[i]) == k
            then Conteo(ConteoDe(acts[..i], k).total + 1, ConteoDe(acts[..i], k).completadas + if acts[i].completada then 1 else 0)
            else ConteoDe(acts[..i], k)
  {
    GroupSnoc(acts, DestinoKey, i);
    var m := Members(acts[..i], DestinoKey, k);
    if DestinoKey(acts[i]) == k {
      CountIfSnoc(m, acts[i], Done);
    } else {
      assert m + [] == m;
    }
  }

  lemma ConteoDeNew(xs: seq<Actividad>, k: string)
    requires k !in KeysOf(xs, DestinoKey)
    ensures ConteoDe(xs, k) == Conteo(0, 0)
  {
    MembersOfNewKey(xs, DestinoKey, k);
  }

  /** `por_destino` after counting `xs`: one entry per destination, with its total and completed. */
  ghost predicate Tallied(destinos: map<string, Conteo>, xs: seq<Actividad>)
  {
    && (forall k :: k in destinos <==> k in KeysOf(xs, DestinoKey))
    && (forall k :: k in destinos ==> destinos[k] == ConteoDe(xs, k))
  }

  /** One turn of the counting loop: activity `acts[i]` counted under its destination. */
  method Tally(destinos: map<string, Conteo>, acts: seq<Actividad>, i: nat) returns (r: map<string, Conteo>)
    requires i < |acts| && Tallied(destinos, acts[..i])
    ensures Tallied(r, acts[..i + 1])
  {
    var a := acts[i];
    var k := DestinoKey(a);
    KeysOfSnoc(acts, DestinoKey, i);
    var start := if k in destinos then destinos[k] else Conteo(0, 0);
    if k !in destinos {
      ConteoDeNew(acts[..i], k);
    }
    var c := Conteo(start.total + 1, start.completadas + if a.completada then 1 else 0);
    ConteoDeSnoc(acts, i, k);
    assert c == ConteoDe(acts[..i + 1], k);
    r := destinos[k := c];
    forall j | j in r ensures r[j] == ConteoDe(acts[..i + 1], j) {
      if j != k {
        ConteoDeSnoc(acts, i, j);
      }
    }
  }

  /** `obtener_estadisticas_actividades`, without the percentage. */
  method ObtenerEstadisticas(acts: seq<Actividad>) returns (e: Estadisticas)
    ensures e.total == |acts| && e.completadas == CountIf(acts, Done)
    ensures e.pendientes == e.total - e.completadas
    ensures Tallied(e.porDestino, acts)
  {
    var total := |acts|;
    var completadas := CountIf(acts, Done);
    var destinos: map<string, Conteo> := map[];
    for i := 0 to |acts|
      invariant Tallied(destinos, acts[..i])
    {
      destinos := Tally(destinos, acts, i);
    }
    assert acts[..|acts|] == acts;
    e := Estadisticas(total, completadas, total - completadas, destinos);
  }

  lemma {:induction false} TotalOfOnes(xs: seq<Actividad>)
    ensures Total(xs, One) == |xs|
  {
    if xs != [] {
      TotalOfOnes(xs[..|xs| - 1]);
    }
  }

  /**
   * The counts agree: pending are those not completed, the per-destination
   * totals add up to the overall total, and no destination has more completed
   * activities than activities.
   */
  lemma EstadisticasFacts(acts: seq<Actividad>)
    ensures CountIf(acts, Done) + CountIf(acts, Pending) == |acts|
    ensures TotalByKeys(acts, DestinoKey, One, KeysOf(acts, DestinoKey)) == |acts|
    ensures forall k :: CountIf(Members(acts, DestinoKey, k), Done) <= |Members(acts, DestinoKey, k)|
  {
    CountIfSplit(acts, Done, Pending);
    GroupTotals(acts, DestinoKey, One);
    TotalOfOnes(acts);
  }
}
