/**
 * Accommodation of a trip: the date check on creation, the grouping by
 * destination, the night totals, the coverage gaps between the trip's dates
 * and the stays, and the completeness check. The stays come as queried,
 * ordered by check-in date. Dates are day numbers, so a difference of dates is
 * a number of days.
 */
module Alojamientos {
  import opened Wrappers
  import opened Text
  import opened Grouping

  /** A stay; an empty text stands for a field left empty or None. */
  datatype Alojamiento = Alojamiento(
    id: int, viajeId: int, nombre: string, destino: string, direccion: string,
    entrada: int, salida: int, desayuno: bool, confirmacion: string, pin: string)

  /** The trip's own dates, as the coverage check reads them. */
  datatype Viaje = Viaje(id: int, inicio: int, fin: int)

  datatype Error =
    | FechasInvalidas   // 'La fecha de salida debe ser posterior a la entrada'
    | ViajeNoEncontrado // 'Viaje no encontrado'
    | CampoFaltante     // a key looked up in a result that does not carry it (KeyError)

  /** `crear_alojamiento` before the insert: check-out must come after check-in. */
  function Crear(id: int, viajeId: int, nombre: string, destino: string, direccion: string,
                 entrada: int, salida: int, desayuno: bool, confirmacion: string, pin: string)
    : Result<Alojamiento, Error>
  {
    if salida <= entrada then Err(FechasInvalidas)
    else Ok(Alojamiento(id, viajeId, nombre, destino, direccion, entrada, salida, desayuno, confirmacion, pin))
  }

  /** `(fecha_salida - fecha_entrada).days`. */
  function Noches(a: Alojamiento): int
  {
    a.salida - a.entrada
  }

  /** A stay is created exactly when it lasts at least one night, and is stored as given. */
  lemma CrearFacts(id: int, viajeId: int, nombre: string, destino: string, direccion: string,
                   entrada: int, salida: int, desayuno: bool, confirmacion: string, pin: string)
    ensures var r := Crear(id, viajeId, nombre, destino, direccion, entrada, salida, desayuno, confirmacion, pin);
      && (r.Ok? <==> salida > entrada)
      && (r.Err? ==> r.error == FechasInvalidas)
      && (r.Ok? ==> Noches(r.value) >= 1 && r.value.entrada == entrada && r.value.salida == salida)
  {
  }

  // ---------------------------------------------------------------- grouping

  /** `destino.lower() if destino else 'otros'`. */
  function DestinoKey(a: Alojamiento): string
  {
    if a.destino == "" then "otros" else Lower(a.destino)
  }

  function Entrada(a: Alojamiento): int
  {
    a.entrada
  }

  /** `agrupados.items()`: each destination with its stays, in first-appearance order. */
  function Items(ss: seq<Alojamiento>): seq<(string, seq<Alojamiento>)>
  {
    var ks := KeysOf(ss, DestinoKey);
    seq(|ks|, i requires 0 <= i < |ks| => (ks[i], Members(ss, DestinoKey, ks[i])))
  }

  /** `sorted(..., key=len, reverse=True)` as an ascending sort on the negated size. */
  function Tamano(item: (string, seq<Alojamiento>)): int
  {
    -|item.1|
  }

  function Ordenados(ss: seq<Alojamiento>): seq<(string, seq<Alojamiento>)>
  {
    SortBy(Items(ss), Tamano)
  }

  /**
   * `agrupar_alojamientos_por_destino`: destinations by number of stays, most
   * first, and each destination's stays by check-in date.
   */
  function Agrupados(ss: seq<Alojamiento>): seq<(string, seq<Alojamiento>)>
  {
    PorEntrada(Ordenados(ss))
  }

  /** Each destination's stays sorted by check-in date. */
  function PorEntrada(o: seq<(string, seq<Alojamiento>)>): seq<(string, seq<Alojamiento>)>
  {
    seq(|o|, i requires 0 <= i < |o| => (o[i].0, SortBy(o[i].1, Entrada)))
  }

  /** The dictionary's items, in insertion order. */
  method ItemsOf(ss: seq<Alojamiento>, keys: seq<string>, groups: map<string, seq<Alojamiento>>)
    returns (items: seq<(string, seq<Alojamiento>)>)
    requires keys == KeysOf(ss, DestinoKey)
    requires forall k :: k in groups <==> k in keys
    requires forall k :: k in groups ==> groups[k] == Members(ss, DestinoKey, k)
    ensures items == Items(ss)
  {
    items := [];
    for i := 0 to |keys|
      invariant items == Items(ss)[..i]
    {
      assert Items(ss)[..i + 1] == Items(ss)[..i] + [(keys[i], groups[keys[i]])];
      items := items + [(keys[i], groups[keys[i]])];
    }
  }

  /** The loop filling the `OrderedDict`, sorting each destination's stays. */
  method SortEach(o: seq<(string, seq<Alojamiento>)>) returns (entries: seq<(string, seq<Alojamiento>)>)
    ensures entries == PorEntrada(o)
  {
    entries := [];
    for i := 0 to |o|
      invariant |entries| == i && forall j :: 0 <= j < i ==> entries[j] == PorEntrada(o)[j]
    {
      entries := entries + [(o[i].0, SortBy(o[i].1, Entrada))];
    }
  }

  /** The append loop, the sort of the items by size and the loop filling the `OrderedDict`. */
  method AgruparPorDestino(ss: seq<Alojamiento>) returns (entries: seq<(string, seq<Alojamiento>)>)
    ensures entries == Agrupados(ss)
  {
    var keys, groups := Group(ss, DestinoKey);
    var items := ItemsOf(ss, keys, groups);
    entries := SortEach(SortBy(items, Tamano));
  }

  /** Each item of `Items` is a destination with exactly its stays. */
  lemma ItemsExactly(ss: seq<Alojamiento>, item: (string, seq<Alojamiento>))
    requires item in Items(ss)
    ensures item.0 in KeysOf(ss, DestinoKey) && item.1 == Members(ss, DestinoKey, item.0)
  {
  }

  /** Every stay sits in exactly one group, the one of its destination. */
  lemma AgrupadosOnce(ss: seq<Alojamiento>, x: Alojamiento)
    requires x in ss
    ensures var g := Agrupados(ss);
      && (exists i :: 0 <= i < |g| && g[i].0 == DestinoKey(x))
      && (forall i :: 0 <= i < |g| ==> (x in g[i].1 <==> g[i].0 == DestinoKey(x)))
  {
    var g := Agrupados(ss);
    AgrupadosHasKey(ss, x);
    forall i | 0 <= i < |g| ensures x in g[i].1 <==> g[i].0 == DestinoKey(x) {
      AgrupadoAt(ss, i);
    }
  }

  lemma AgrupadosHasKey(ss: seq<Alojamiento>, x: Alojamiento)
    requires x in ss
    ensures var g := Agrupados(ss);
      exists i :: 0 <= i < |g| && g[i].0 == DestinoKey(x)
  {
    var items, o, g := Items(ss), Ordenados(ss), Agrupados(ss);
    KeysOfExactly(ss, DestinoKey);
    var ks := KeysOf(ss, DestinoKey);
    assert DestinoKey(x) in ks;
    var j :| 0 <= j < |ks| && ks[j] == DestinoKey(x);
    assert items[j].0 == DestinoKey(x);
    assert items[j] in multiset(o);
    var i :| 0 <= i < |o| && o[i] == items[j];
    assert g[i].0 == o[i].0;
  }

  /** The group at position `i` is a destination with exactly its stays. */
  lemma AgrupadoAt(ss: seq<Alojamiento>, i: nat)
    requires i < |Agrupados(ss)|
    ensures var g := Agrupados(ss);
      forall y :: y in g[i].1 <==> y in ss && DestinoKey(y) == g[i].0
  {
    var o, g := Ordenados(ss), Agrupados(ss);
    assert o[i] in multiset(o);
    assert o[i] in Items(ss);
    ItemsExactly(ss, o[i]);
    MembersExactly(ss, DestinoKey, o[i].0);
    assert g[i] == (o[i].0, SortBy(o[i].1, Entrada));
    forall y ensures y in g[i].1 <==> y in o[i].1 {
      assert y in g[i].1 <==> y in multiset(g[i].1);
      assert y in o[i].1 <==> y in multiset(o[i].1);
    }
  }

  /** Destinations come by number of stays, most first, and each destination's stays are in check-in order. */
  lemma AgrupadosOrder(ss: seq<Alojamiento>)
    ensures var g := Agrupados(ss);
      && (forall i, j :: 0 <= i < j < |g| ==> |g[i].1| >= |g[j].1|)
      && (forall i :: 0 <= i < |g| ==> SortedBy(g[i].1, Entrada))
  {
    var o, g := Ordenados(ss), Agrupados(ss);
    SortBySorted(Items(ss), Tamano);
    forall i | 0 <= i < |g| ensures |g[i].1| == |o[i].1| && SortedBy(g[i].1, Entrada) {
      SortBySorted(o[i].1, Entrada);
      assert |multiset(g[i].1)| == |multiset(o[i].1)|;
    }
  }

  /** Destinations with as many stays as each other keep the order in which they first appear. */
  lemma AgrupadosStable(ss: seq<Alojamiento>, n: int)
    ensures OfRank(Ordenados(ss), Tamano, -n) == OfRank(Items(ss), Tamano, -n)
  {
    SortByStable(Items(ss), Tamano, -n);
  }

  // ---------------------------------------------------------------- nights

  datatype NochesInfo = NochesInfo(totalNoches: int, totalAlojamientos: nat, porDestino: map<string, int>)

  /** `calcular_noches_estancia`, without the average: one loop adding each stay's nights. */
  method CalcularNoches(ss: seq<Alojamiento>) returns (r: NochesInfo)
    ensures r.totalNoches == Total(ss, Noches) && r.totalAlojamientos == |ss|
    ensures Summed(r.porDestino, ss, DestinoKey, Noches)
  {
    var total := 0;
    var porDestino: map<string, int> := map[];
    for i := 0 to |ss|
      invariant total == Total(ss[..i], Noches)
      invariant Summed(porDestino, ss[..i], DestinoKey, Noches)
    {
      assert ss[..i + 1][..i] == ss[..i];
      var noches := ss[i].salida - ss[i].entrada;
      total := total + noches;
      porDestino := SumStep(porDestino, ss, DestinoKey, Noches, i);
    }
    assert ss[..|ss|] == ss;
    r := NochesInfo(total, |ss|, porDestino);
  }

  lemma {:induction false} AtLeastOneNightEach(ss: seq<Alojamiento>)
    requires forall a :: a in ss ==> a.salida > a.entrada
    ensures Total(ss, Noches) >= |ss|
  {
    if ss != [] {
      assert ss[|ss| - 1] in ss;
      AtLeastOneNightEach(ss[..|ss| - 1]);
    }
  }

  /**
   * The nights per destination add up to the total; when every stay passed the
   * creation check, there are at least as many nights as stays.
   */
  lemma NochesFacts(ss: seq<Alojamiento>, porDestino: map<string, int>)
    requires Summed(porDestino, ss, DestinoKey, Noches)
    ensures SumValues(porDestino, KeysOf(ss, DestinoKey)) == Total(ss, Noches)
    ensures (forall a :: a in ss ==> a.salida > a.entrada) ==> Total(ss, Noches) >= |ss|
  {
    SumsAddUp(porDestino, ss, DestinoKey, Noches);
    if forall a :: a in ss ==> a.salida > a.entrada {
      AtLeastOneNightEach(ss);
    }
  }

  // ---------------------------------------------------------------- coverage

  datatype TipoGap = Inicio | Intermedio | Final

  /** A stretch of the trip with no stay; `anterior`/`siguiente` name the stays around an intermediate gap. */
  datatype Gap = Gap(tipo: TipoGap, desde: int, hasta: int, dias: int, anterior: string, siguiente: string)

  function GapInicio(ss: seq<Alojamiento>, v: Viaje): seq<Gap>
    requires ss != []
  {
    if ss[0].entrada > v.inicio then [Gap(Inicio, v.inicio, ss[0].entrada, ss[0].entrada - v.inicio, "", "")] else []
  }

  function GapEntre(actual: Alojamiento, siguiente: Alojamiento): Gap
  {
    Gap(Intermedio, actual.salida, siguiente.entrada, siguiente.entrada - actual.salida, actual.nombre, siguiente.nombre)
  }

  /** The intermediate gaps: one for each consecutive pair where the next stay starts after this one ends. */
  function Intermedios(ss: seq<Alojamiento>): seq<Gap>
  {
    if |ss| < 2 then []
    else
      var n := |ss| - 1;
      Intermedios(ss[..n]) + (if ss[n - 1].salida < ss[n].entrada then [GapEntre(ss[n - 1], ss[n])] else [])
  }

  function GapFinal(ss: seq<Alojamiento>, v: Viaje): seq<Gap>
    requires ss != []
  {
    var u := ss[|ss| - 1];
    if u.salida < v.fin then [Gap(Final, u.salida, v.fin, v.fin - u.salida, "", "")] else []
  }

  function Gaps(ss: seq<Alojamiento>, v: Viaje): seq<Gap>
    requires ss != []
  {
    GapInicio(ss, v) + Intermedios(ss) + GapFinal(ss, v)
  }

  /** `sum(gap['dias'] for gap in gaps)`. */
  function SumDias(gaps: seq<Gap>): int
  {
    if gaps == [] then 0 else SumDias(gaps[..|gaps| - 1]) + gaps[|gaps| - 1].dias
  }

  /**
   * The three shapes of `verificar_continuidad_alojamiento`'s result: no stays
   * (no gaps, coverage false, and no `total_gaps` or `dias_sin_alojamiento`
   * keys), a missing trip, or the full report.
   */
  datatype Continuidad =
    | SinAlojamientos
    | SinViaje
    | Informe(gaps: seq<Gap>, cobertura: bool, primero: Alojamiento, ultimo: Alojamiento, totalGaps: nat, diasSin: int)

  function ContinuidadDe(ss: seq<Alojamiento>, viaje: Option<Viaje>): Continuidad
  {
    if ss == [] then SinAlojamientos
    else if viaje.None? then SinViaje
    else
      var gaps := Gaps(ss, viaje.value);
      Informe(gaps, |gaps| == 0, ss[0], ss[|ss| - 1], |gaps|, SumDias(gaps))
  }

  /** `verificar_continuidad_alojamiento`: no stays, no trip, or the report built from the gaps. */
  method VerificarContinuidad(ss: seq<Alojamiento>, viaje: Option<Viaje>) returns (c: Continuidad)
    ensures c == ContinuidadDe(ss, viaje)
  {
    if ss == [] {
      return SinAlojamientos;
    }
    if viaje.None? {
      return SinViaje;
    }
    var gaps := BuscarGaps(ss, viaje.value);
    c := Informe(gaps, |gaps| == 0, ss[0], ss[|ss| - 1], |gaps|, SumDias(gaps));
  }

  /** The gap before the first stay, the loop over consecutive pairs, and the gap after the last stay. */
  method BuscarGaps(ss: seq<Alojamiento>, v: Viaje) returns (gaps: seq<Gap>)
    requires ss != []
    ensures gaps == Gaps(ss, v)
  {
    gaps := [];
    var primero := ss[0];
    if primero.entrada > v.inicio {
      var dias := primero.entrada - v.inicio;
      if dias > 0 {
        gaps := gaps + [Gap(Inicio, v.inicio, primero.entrada, dias, "", "")];
      }
    }
    gaps := AgregarIntermedios(ss, gaps);
    var ultimo := ss[|ss| - 1];
    if ultimo.salida < v.fin {
      var dias := v.fin - ultimo.salida;
      if dias > 0 {
        gaps := gaps + [Gap(Final, ultimo.salida, v.fin, dias, "", "")];
      }
    }
  }

  /** The loop over consecutive pairs, appending a gap wherever the next stay starts after this one ends. */
  method AgregarIntermedios(ss: seq<Alojamiento>, antes: seq<Gap>) returns (gaps: seq<Gap>)
    requires ss != []
    ensures gaps == antes + Intermedios(ss)
  {
    gaps := antes;
    assert ss[..1] == [ss[0]];
    for i := 0 to |ss| - 1
      invariant gaps == antes + Intermedios(ss[..i + 1])
    {
      var actual, siguiente := ss[i], ss[i + 1];
      IntermediosSnoc(ss, i);
      if actual.salida < siguiente.entrada {
        gaps := gaps + [Gap(Intermedio, actual.salida, siguiente.entrada, siguiente.entrada - actual.salida,
                            actual.nombre, siguiente.nombre)];
      }
    }
    assert ss[..|ss|] == ss;
  }

  lemma IntermediosSnoc(ss: seq<Alojamiento>, i: nat)
    requires i + 1 < |ss|
    ensures Intermedios(ss[..i + 2])
         == Intermedios(ss[..i + 1]) + if ss[i].salida < ss[i + 1].entrada then [GapEntre(ss[i], ss[i + 1])] else []
  {
    assert ss[..i + 2][..i + 1] == ss[..i + 1];
  }

  function EsInicio(g: Gap): bool { g.tipo == Inicio }
  function EsIntermedio(g: Gap): bool { g.tipo == Intermedio }
  function EsFinal(g: Gap): bool { g.tipo == Final }

  /** The pair at `i` leaves days uncovered: the next stay starts after this one ends. */
  predicate HayGap(ss: seq<Alojamiento>, i: int)
  {
    0 <= i < |ss| - 1 && ss[i].salida < ss[i + 1].entrada
  }

  function GapAt(ss: seq<Alojamiento>, i: int): Gap
    requires 0 <= i < |ss| - 1
  {
    GapEntre(ss[i], ss[i + 1])
  }

  lemma PrefixGaps(ss: seq<Alojamiento>, n: int)
    requires 1 <= n <= |ss|
    ensures forall i :: 0 <= i < n - 1 ==> (HayGap(ss[..n], i) <==> HayGap(ss, i)) && GapAt(ss[..n], i) == GapAt(ss, i)
  {
  }

  /** The intermediate gaps are exactly those of the pairs that leave days uncovered. */
  lemma {:induction false} IntermediosExactly(ss: seq<Alojamiento>)
    ensures forall g :: g in Intermedios(ss) <==> exists i :: HayGap(ss, i) && g == GapAt(ss, i)
  {
    if |ss| >= 2 {
      var n := |ss| - 1;
      IntermediosExactly(ss[..n]);
      PrefixGaps(ss, n);
      forall g ensures g in Intermedios(ss) <==> exists i :: HayGap(ss, i) && g == GapAt(ss, i) {
        if g in Intermedios(ss[..n]) {
          var i :| HayGap(ss[..n], i) && g == GapAt(ss[..n], i);
          assert HayGap(ss, i) && g == GapAt(ss, i);
        } else if g in Intermedios(ss) {
          assert HayGap(ss, n - 1) && g == GapAt(ss, n - 1);
        }
        if exists i :: HayGap(ss, i) && g == GapAt(ss, i) {
          var i :| HayGap(ss, i) && g == GapAt(ss, i);
          if i < n - 1 {
            assert HayGap(ss[..n], i) && g == GapAt(ss[..n], i);
          }
        }
      }
    }
  }

  /** Every intermediate gap is typed so and lasts at least a day. */
  lemma IntermediosPositive(ss: seq<Alojamiento>)
    ensures forall g :: g in Intermedios(ss) ==> g.tipo == Intermedio && g.dias > 0
  {
    IntermediosExactly(ss);
  }

  lemma {:induction false} IntermediosOnly(ss: seq<Alojamiento>)
    ensures Where(Intermedios(ss), EsInicio) == [] && Where(Intermedios(ss), EsFinal) == []
    ensures Where(Intermedios(ss), EsIntermedio) == Intermedios(ss)
  {
    if |ss| >= 2 {
      var n := |ss| - 1;
      IntermediosOnly(ss[..n]);
      var tail := if ss[n - 1].salida < ss[n].entrada then [GapEntre(ss[n - 1], ss[n])] else [];
      WhereAppend(Intermedios(ss[..n]), tail, EsInicio);
      WhereAppend(Intermedios(ss[..n]), tail, EsFinal);
      WhereAppend(Intermedios(ss[..n]), tail, EsIntermedio);
      if tail != [] {
        assert tail[..0] == [];
      }
    }
  }

  /** A start gap exactly when the first stay begins after the trip starts, lasting the days in between. */
  lemma GapsInicio(ss: seq<Alojamiento>, v: Viaje)
    requires ss != []
    ensures Where(Gaps(ss, v), EsInicio)
         == if ss[0].entrada > v.inicio then [Gap(Inicio, v.inicio, ss[0].entrada, ss[0].entrada - v.inicio, "", "")] else []
  {
    var a, b, c := GapInicio(ss, v), Intermedios(ss), GapFinal(ss, v);
    assert Gaps(ss, v) == a + b + c;
    IntermediosOnly(ss);
    WhereFirstOfThree(a, b, c, EsInicio);
  }

  /** An end gap exactly when the last stay ends before the trip does, lasting the days in between. */
  lemma GapsFinal(ss: seq<Alojamiento>, v: Viaje)
    requires ss != []
    ensures Where(Gaps(ss, v), EsFinal)
         == if ss[|ss| - 1].salida < v.fin
            then [Gap(Final, ss[|ss| - 1].salida, v.fin, v.fin - ss[|ss| - 1].salida, "", "")] else []
  {
    var a, b, c := GapInicio(ss, v), Intermedios(ss), GapFinal(ss, v);
    var u := ss[|ss| - 1];
    assert c == if u.salida < v.fin then [Gap(Final, u.salida, v.fin, v.fin - u.salida, "", "")] else [];
    assert Gaps(ss, v) == a + b + c;
    IntermediosOnly(ss);
    WhereLastOfThree(a, b, c, EsFinal);
  }

  /** The intermediate gaps of the report are one per consecutive pair that leaves days uncovered. */
  lemma GapsIntermedios(ss: seq<Alojamiento>, v: Viaje)
    requires ss != []
    ensures forall g :: g in Where(Gaps(ss, v), EsIntermedio) <==> exists i :: HayGap(ss, i) && g == GapAt(ss, i)
  {
    var a, b, c := GapInicio(ss, v), Intermedios(ss), GapFinal(ss, v);
    assert Gaps(ss, v) == a + b + c;
    IntermediosOnly(ss);
    IntermediosExactly(ss);
    WhereMiddleOfThree(a, b, c, EsIntermedio);
  }

  lemma {:induction false} SumDiasPositive(gaps: seq<Gap>)
    requires forall g :: g in gaps ==> g.dias > 0
    ensures SumDias(gaps) >= |gaps|
  {
    if gaps != [] {
      assert gaps[|gaps| - 1] in gaps;
      SumDiasPositive(gaps[..|gaps| - 1]);
    }
  }

  /**
   * The report's shape: no stays and a missing trip are told apart from the
   * report; every gap lasts at least a day, so the coverage is complete
   * exactly when there are no gaps, exactly when no day is uncovered, and the
   * uncovered days are at least as many as the gaps.
   */
  lemma ContinuidadFacts(ss: seq<Alojamiento>, viaje: Option<Viaje>)
    ensures var c := ContinuidadDe(ss, viaje);
      && (c.SinAlojamientos? <==> ss == [])
      && (c.SinViaje? <==> ss != [] && viaje.None?)
      && (c.Informe? ==>
            && c.totalGaps == |c.gaps|
            && (forall g :: g in c.gaps ==> g.dias > 0)
            && (c.cobertura <==> c.gaps == [])
            && (c.cobertura <==> c.diasSin == 0)
            && c.diasSin >= c.totalGaps)
  {
    var c := ContinuidadDe(ss, viaje);
    if c.Informe? {
      IntermediosPositive(ss);
      SumDiasPositive(c.gaps);
    }
  }

  // ---------------------------------------------------------------- validation

  function SinConfirmacion(a: Alojamiento): bool
  {
    a.confirmacion == ""
  }

  /** `not direccion or len(direccion.strip()) < 10`. */
  function SinDireccion(a: Alojamiento): bool
  {
    a.direccion == "" || |Strip(a.direccion)| < 10
  }

  /** The advice `_generar_recomendaciones_alojamiento` produces, with its counts. */
  datatype Recomendacion =
    | AgregarAlojamientos
    | CubrirGaps(gaps: nat, dias: int)
    | AgregarConfirmaciones(n: nat)
    | CompletarDirecciones(n: nat)
    | Consolidar(destino: string, n: nat)

  /** One piece of advice for each destination with more than two stays, in grouping order. */
  function Consolidaciones(g: seq<(string, seq<Alojamiento>)>): seq<Recomendacion>
  {
    if g == [] then []
    else
      var n := |g| - 1;
      Consolidaciones(g[..n]) + (if |g[n].1| > 2 then [Consolidar(g[n].0, |g[n].1|)] else [])
  }

  function Recomendaciones(ss: seq<Alojamiento>, cobertura: bool, totalGaps: nat, diasSin: int): seq<Recomendacion>
  {
    if ss == [] then [AgregarAlojamientos]
    else
      var sinConf, sinDir := Where(ss, SinConfirmacion), Where(ss, SinDireccion);
      (if !cobertura then [CubrirGaps(totalGaps, diasSin)] else [])
      + (if sinConf != [] then [AgregarConfirmaciones(|sinConf|)] else [])
      + (if sinDir != [] then [CompletarDirecciones(|sinDir|)] else [])
      + Consolidaciones(Agrupados(ss))
  }

  datatype Validacion = Validacion(
    completo: bool, total: nat, sinConfirmacion: nat, sinDireccion: nat, gaps: nat, diasSin: int,
    problematicos: seq<Alojamiento>, recomendaciones: seq<Recomendacion>)

  /** The result dictionary, given the coverage figures it reads. */
  function Informar(ss: seq<Alojamiento>, cobertura: bool, totalGaps: nat, diasSin: int): Validacion
  {
    var sinConf, sinDir := Where(ss, SinConfirmacion), Where(ss, SinDireccion);
    Validacion(cobertura && |sinConf| == 0 && |sinDir| == 0, |ss|, |sinConf|, |sinDir|, totalGaps, diasSin,
               sinConf + sinDir, Recomendaciones(ss, cobertura, totalGaps, diasSin))
  }

  /**
   * `validar_alojamientos_para_viaje` as written: it reads `total_gaps` and
   * `cobertura_completa` from the coverage result, which has neither key for a
   * missing trip and no `total_gaps` for a trip without stays.
   */
  function ValidarEscrito(ss: seq<Alojamiento>, viaje: Option<Viaje>): Result<Validacion, Error>
  {
    match ContinuidadDe(ss, viaje)
    case Informe(_, cobertura, _, _, totalGaps, diasSin) => Ok(Informar(ss, cobertura, totalGaps, diasSin))
    case _ => Err(CampoFaltante)
  }

  /** The validation as written fails on every trip that has no stays yet. */
  lemma ValidarEscritoFalla(viaje: Option<Viaje>)
    ensures ValidarEscrito([], viaje) == Err(CampoFaltante)
    ensures Recomendaciones([], false, 0, 0) == [AgregarAlojamientos]
  {
  }

  /**
   * The validation with the no-stays case handled: a trip without stays is
   * reported as incomplete with nothing uncovered counted and the advice to add
   * stays; a missing trip is reported as such.
   */
  function Validar(ss: seq<Alojamiento>, viaje: Option<Viaje>): Result<Validacion, Error>
  {
    match ContinuidadDe(ss, viaje)
    case SinAlojamientos => Ok(Informar(ss, false, 0, 0))
    case SinViaje => Err(ViajeNoEncontrado)
    case Informe(_, cobertura, _, _, totalGaps, diasSin) => Ok(Informar(ss, cobertura, totalGaps, diasSin))
  }

  /**
   * The corrected validation answers for every existing trip, agrees with the
   * original wherever that one answers, and calls the accommodation complete
   * exactly when there are stays, no gap in coverage, and every stay has a
   * confirmation number and an address of at least ten characters.
   */
  lemma ValidarMeans(ss: seq<Alojamiento>, viaje: Option<Viaje>)
    ensures Validar(ss, viaje).Ok? <==> viaje.Some? || ss == []
    ensures ValidarEscrito(ss, viaje).Ok? ==> Validar(ss, viaje) == ValidarEscrito(ss, viaje)
    ensures ss == [] ==> Validar(ss, viaje) == Ok(Validacion(false, 0, 0, 0, 0, 0, [], [AgregarAlojamientos]))
    ensures viaje.Some? ==>
      (Validar(ss, viaje).value.completo <==>
         && ss != [] && Gaps(ss, viaje.value) == []
         && forall a :: a in ss ==> !SinConfirmacion(a) && !SinDireccion(a))
  {
    WhereExactly(ss, SinConfirmacion);
    WhereExactly(ss, SinDireccion);
    if ss == [] {
      assert Where(ss, SinConfirmacion) == [] && Where(ss, SinDireccion) == [];
    }
    if ss != [] && viaje.Some? {
      var r := Validar(ss, viaje).value;
      var sc, sd := Where(ss, SinConfirmacion), Where(ss, SinDireccion);
      if sc != [] {
        assert sc[0] in sc;
      }
      if sd != [] {
        assert sd[0] in sd;
      }
    }
  }
}
