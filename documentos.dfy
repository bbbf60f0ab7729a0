/**
 * Travel documents of a trip: how a new document's expiry date is read, the
 * grouping by type, the expiry buckets relative to today, the critical
 * documents, the statistics panel and the check for essential documents.
 * Dates are day numbers; `hoy` is the current day.
 */
module Documentos {
  import opened Wrappers
  import opened Text
  import opened Grouping

  /** A document; `vencimiento` is its expiry day, if it has one. */
  datatype Documento = Documento(
    id: int, viajeId: int, tipo: string, nombre: string, numero: string,
    vencimiento: Option<int>, notas: string)

  /** `strptime` could not read the date text; the insert and its commit are not part of this model. */
  datatype Error = BadDate

  /** What `crear_documento` may receive as `fecha_vencimiento`: nothing, a text, or a date object. */
  datatype FechaArg = NoFecha | FechaText(text: string) | FechaDate(day: int)

  /**
   * The stored expiry: only a text that is not blank is read (a text that
   * cannot be read is an error); anything else, a date object included,
   * becomes None.
   */
  function NormalizarFecha(f: FechaArg, parse: string -> Option<int>): Result<Option<int>, Error>
  {
    if f.FechaText? && f.text != [] && Strip(f.text) != [] then
      (match parse(f.text)
       case Some(d) => Ok(Some(d))
       case None => Err(BadDate))
    else Ok(None)
  }

  /** `crear_documento` before the insert. */
  function Crear(id: int, viajeId: int, tipo: string, nombre: string, numero: string, f: FechaArg, notas: string,
                 parse: string -> Option<int>): Result<Documento, Error>
  {
    match NormalizarFecha(f, parse)
    case Ok(v) => Ok(Documento(id, viajeId, tipo, nombre, numero, v, notas))
    case Err(e) => Err(e)
  }

  /**
   * Only a non-blank text yields an expiry date, the one it reads as; a blank
   * text, no value and a date object all store None.
   */
  lemma CrearFacts(id: int, viajeId: int, tipo: string, nombre: string, numero: string, f: FechaArg, notas: string,
                   parse: string -> Option<int>)
    ensures var r := Crear(id, viajeId, tipo, nombre, numero, f, notas, parse);
      && (r.Ok? ==> r.value.tipo == tipo && r.value.viajeId == viajeId)
      && ((f.NoFecha? || f.FechaDate? || (f.FechaText? && IsBlank(f.text))) ==> r.Ok? && r.value.vencimiento.None?)
      && (f.FechaText? && !IsBlank(f.text) ==>
            (r.Ok? <==> parse(f.text).Some?) && (r.Ok? ==> r.value.vencimiento == parse(f.text)))
  {
    if f.FechaText? {
      StripEmptyIffBlank(f.text);
    }
  }

  // ---------------------------------------------------------------- grouping

  function Tipo(d: Documento): string
  {
    d.tipo
  }

  /** The fixed display order of the known document types. */
  const TiposOrdenados: seq<string> := ["pasaporte", "visa", "seguro", "reserva", "ticket", "otros"]

  /**
   * `agrupar_documentos_por_tipo` over the trip's documents as queried: one
   * group per type, in query order; known types in their fixed order, then the
   * others ascending.
   */
  function Agrupados(docs: seq<Documento>): seq<(string, seq<Documento>)>
  {
    ByKey(docs, Tipo, TiposOrdenados)
  }

  /** The append loop into a `defaultdict(list)` and the two loops building the ordered result. */
  method AgruparPorTipo(docs: seq<Documento>) returns (entries: seq<(string, seq<Documento>)>)
    ensures entries == Agrupados(docs)
  {
    entries := GroupArranged(docs, Tipo, TiposOrdenados);
  }

  lemma TiposOrdenadosUnique()
    ensures Unique(TiposOrdenados)
  {
  }

  /** Every document sits in exactly one group, the one of its type, which lists its type's documents in order. */
  lemma AgrupadosOnce(docs: seq<Documento>, x: Documento)
    requires x in docs
    ensures var g := Agrupados(docs);
      && (exists i :: 0 <= i < |g| && g[i].0 == x.tipo)
      && (forall i :: 0 <= i < |g| ==> (x in g[i].1 <==> g[i].0 == x.tipo))
  {
    TiposOrdenadosUnique();
    ByKeyOnce(docs, Tipo, TiposOrdenados, x);
    var g := Agrupados(docs);
    var j :| 0 <= j < |g| && g[j].0 == Tipo(x);
    assert g[j].0 == x.tipo;
  }

  lemma AgrupadosKeys(docs: seq<Documento>)
    ensures var g, ks := Agrupados(docs), Arranged(KeysOf(docs, Tipo), TiposOrdenados);
      |g| == |ks| && forall i :: 0 <= i < |g| ==> g[i].0 == ks[i]
  {
  }

  /**
   * The known types that occur come first, in the fixed order; every other type
   * follows, strictly ascending.
   */
  lemma AgrupadosKeyOrder(docs: seq<Documento>)
    ensures var g, m := Agrupados(docs), |Present(TiposOrdenados, KeysOf(docs, Tipo))|;
      && m <= |g|
      && (forall i :: 0 <= i < m ==> g[i].0 == Present(TiposOrdenados, KeysOf(docs, Tipo))[i])
      && (forall i :: m <= i < |g| ==> g[i].0 !in TiposOrdenados)
      && (forall i, j :: m <= i < j < |g| ==> Less(g[i].0, g[j].0))
  {
    ByKeyKeyOrder(docs, Tipo, TiposOrdenados);
  }

  // ---------------------------------------------------------------- expiry

  datatype Estado = SinFecha | Vencido | PorVencer | Vigente

  /** The bucket of one document, `dias` being the warning window. */
  function Clasificar(d: Documento, hoy: int, dias: int): Estado
  {
    if d.vencimiento.None? then SinFecha
    else if d.vencimiento.value < hoy then Vencido
    else if d.vencimiento.value <= hoy + dias then PorVencer
    else Vigente
  }

  /** The rules of the four buckets, each stated on its own. */
  lemma ClasificarMeans(d: Documento, hoy: int, dias: int)
    ensures Clasificar(d, hoy, dias) == SinFecha <==> d.vencimiento.None?
    ensures Clasificar(d, hoy, dias) == Vencido <==> d.vencimiento.Some? && d.vencimiento.value < hoy
    ensures Clasificar(d, hoy, dias) == PorVencer <==>
      d.vencimiento.Some? && hoy <= d.vencimiento.value <= hoy + dias
    ensures Clasificar(d, hoy, dias) == Vigente <==>
      d.vencimiento.Some? && d.vencimiento.value >= hoy && d.vencimiento.value > hoy + dias
  {
  }

  /** The documents of one bucket, in query order. */
  function EnEstado(docs: seq<Documento>, hoy: int, dias: int, e: Estado): (r: seq<Documento>)
    ensures |r| <= |docs|
  {
    if docs == [] then []
    else
      var n := |docs| - 1;
      EnEstado(docs[..n], hoy, dias, e) + (if Clasificar(docs[n], hoy, dias) == e then [docs[n]] else [])
  }

  lemma {:induction false} EnEstadoExactly(docs: seq<Documento>, hoy: int, dias: int, e: Estado)
    ensures forall x :: x in EnEstado(docs, hoy, dias, e) <==> x in docs && Clasificar(x, hoy, dias) == e
  {
    if docs != [] {
      var n := |docs| - 1;
      assert docs == docs[..n] + [docs[n]];
      EnEstadoExactly(docs[..n], hoy, dias, e);
    }
  }

  datatype Vencimientos = Vencimientos(
    vencidos: seq<Documento>, porVencer: seq<Documento>, vigentes: seq<Documento>, sinFecha: seq<Documento>)

  /** `verificar_vencimientos`: each document appended to the list of its bucket. */
  method VerificarVencimientos(docs: seq<Documento>, hoy: int, dias: int) returns (v: Vencimientos)
    ensures v.vencidos == EnEstado(docs, hoy, dias, Vencido)
    ensures v.porVencer == EnEstado(docs, hoy, dias, PorVencer)
    ensures v.vigentes == EnEstado(docs, hoy, dias, Vigente)
    ensures v.sinFecha == EnEstado(docs, hoy, dias, SinFecha)
  {
    v := Vencimientos([], [], [], []);
    for i := 0 to |docs|
      invariant v.vencidos == EnEstado(docs[..i], hoy, dias, Vencido)
      invariant v.porVencer == EnEstado(docs[..i], hoy, dias, PorVencer)
      invariant v.vigentes == EnEstado(docs[..i], hoy, dias, Vigente)
      invariant v.sinFecha == EnEstado(docs[..i], hoy, dias, SinFecha)
    {
      assert docs[..i + 1][..i] == docs[..i];
      var d := docs[i];
      if d.vencimiento.None? {
        v := v.(sinFecha := v.sinFecha + [d]);
      } else if d.vencimiento.value < hoy {
        v := v.(vencidos := v.vencidos + [d]);
      } else if d.vencimiento.value <= hoy + dias {
        v := v.(porVencer := v.porVencer + [d]);
      } else {
        v := v.(vigentes := v.vigentes + [d]);
      }
    }
    assert docs[..|docs|] == docs;
  }

  /** The four buckets split the documents: their sizes add up to the number of documents. */
  lemma {:induction false} BucketsAddUp(docs: seq<Documento>, hoy: int, dias: int)
    ensures |EnEstado(docs, hoy, dias, Vencido)| + |EnEstado(docs, hoy, dias, PorVencer)|
          + |EnEstado(docs, hoy, dias, Vigente)| + |EnEstado(docs, hoy, dias, SinFecha)| == |docs|
  {
    if docs != [] {
      BucketsAddUp(docs[..|docs| - 1], hoy, dias);
    }
  }

  /** Every document is in the bucket its date calls for, and in no other. */
  lemma BucketsPartition(docs: seq<Documento>, hoy: int, dias: int, x: Documento, e: Estado)
    requires x in docs
    ensures x in EnEstado(docs, hoy, dias, e) <==> e == Clasificar(x, hoy, dias)
  {
    EnEstadoExactly(docs, hoy, dias, e);
  }

  /** `obtener_documentos_criticos`: the expired, then those expiring within 15 days. */
  function Criticos(docs: seq<Documento>, hoy: int): seq<Documento>
  {
    EnEstado(docs, hoy, 15, Vencido) + EnEstado(docs, hoy, 15, PorVencer)
  }

  /** A document is critical exactly when it has an expiry date no later than 15 days from today. */
  lemma CriticosMeans(docs: seq<Documento>, hoy: int, x: Documento)
    ensures x in Criticos(docs, hoy) <==> x in docs && x.vencimiento.Some? && x.vencimiento.value <= hoy + 15
  {
    EnEstadoExactly(docs, hoy, 15, Vencido);
    EnEstadoExactly(docs, hoy, 15, PorVencer);
  }

  // ---------------------------------------------------------------- statistics

  function ConFecha(d: Documento): bool
  {
    d.vencimiento.Some?
  }

  datatype EstadisticasDoc = EstadisticasDoc(
    total: nat, conFecha: nat, sinFecha: int,
    vencidos: nat, porVencer: nat, vigentes: nat,
    porTipo: map<string, nat>, requierenAtencion: nat)

  /** `obtener_estadisticas_documentos`, over the 30-day buckets. */
  method ObtenerEstadisticas(docs: seq<Documento>, hoy: int) returns (e: EstadisticasDoc)
    ensures e.total == |docs| && e.conFecha == CountIf(docs, ConFecha) && e.sinFecha == e.total - e.conFecha
    ensures e.vencidos == |EnEstado(docs, hoy, 30, Vencido)|
    ensures e.porVencer == |EnEstado(docs, hoy, 30, PorVencer)|
    ensures e.vigentes == |EnEstado(docs, hoy, 30, Vigente)|
    ensures e.requierenAtencion == e.vencidos + e.porVencer
    ensures Counted(e.porTipo, docs, Tipo)
  {
    var v := VerificarVencimientos(docs, hoy, 30);
    var total := |docs|;
    var conFecha := CountIf(docs, ConFecha);
    var tipos := CountByKey(docs, Tipo);
    e := EstadisticasDoc(total, conFecha, total - conFecha, |v.vencidos|, |v.porVencer|, |v.vigentes|, tipos,
                         |v.vencidos| + |v.porVencer|);
  }

  lemma {:induction false} SinFechaCount(docs: seq<Documento>, hoy: int, dias: int)
    ensures |EnEstado(docs, hoy, dias, SinFecha)| == |docs| - CountIf(docs, ConFecha)
  {
    if docs != [] {
      SinFechaCount(docs[..|docs| - 1], hoy, dias);
    }
  }

  /**
   * The panel is consistent: the documents without a date are exactly the
   * `sin_fecha` bucket, those with one split into expired, expiring and valid,
   * and the per-type counts add up to the total.
   */
  lemma EstadisticasFacts(docs: seq<Documento>, hoy: int, porTipo: map<string, nat>)
    requires Counted(porTipo, docs, Tipo)
    ensures |EnEstado(docs, hoy, 30, SinFecha)| == |docs| - CountIf(docs, ConFecha)
    ensures |EnEstado(docs, hoy, 30, Vencido)| + |EnEstado(docs, hoy, 30, PorVencer)| + |EnEstado(docs, hoy, 30, Vigente)|
         == CountIf(docs, ConFecha)
    ensures SumCounts(porTipo, KeysOf(docs, Tipo)) == |docs|
  {
    SinFechaCount(docs, hoy, 30);
    BucketsAddUp(docs, hoy, 30);
    CountsAddUp(porTipo, docs, Tipo);
  }

  // ---------------------------------------------------------------- validation

  const Esenciales: seq<string> := ["pasaporte", "visa", "seguro"]
  const Recomendados: seq<string> := ["reserva", "ticket"]

  /** `set(d.tipo.lower() for d in documentos)`. */
  function TiposPresentes(docs: seq<Documento>): set<string>
  {
    set d | d in docs :: Lower(d.tipo)
  }

  /** `[t for t in requeridos if t not in presentes]`. */
  function Faltantes(requeridos: seq<string>, presentes: set<string>): (r: seq<string>)
    ensures |r| <= |requeridos|
  {
    if requeridos == [] then []
    else (if requeridos[0] in presentes then [] else [requeridos[0]]) + Faltantes(requeridos[1..], presentes)
  }

  lemma {:induction false} FaltantesExactly(requeridos: seq<string>, presentes: set<string>)
    ensures forall t :: t in Faltantes(requeridos, presentes) <==> t in requeridos && t !in presentes
  {
    if requeridos != [] {
      FaltantesExactly(requeridos[1..], presentes);
      assert requeridos == [requeridos[0]] + requeridos[1..];
    }
  }

  datatype Validacion = Validacion(
    completo: bool,
    faltantesEsenciales: seq<string>,
    faltantesRecomendados: seq<string>,
    criticos: seq<Documento>,
    totalDocumentos: nat)

  /** `validar_documentos_para_viaje`. */
  function Validar(docs: seq<Documento>, hoy: int): Validacion
  {
    var presentes := TiposPresentes(docs);
    var esenciales := Faltantes(Esenciales, presentes);
    var criticos := Criticos(docs, hoy);
    Validacion(|esenciales| == 0 && |criticos| == 0, esenciales, Faltantes(Recomendados, presentes), criticos, |docs|)
  }

  /**
   * A trip's documents are complete exactly when each essential type occurs
   * (compared in lower case) and no document expires within 15 days or has
   * already expired; an essential type is reported missing exactly when no
   * document has it.
   */
  lemma ValidarMeans(docs: seq<Documento>, hoy: int)
    ensures var r := Validar(docs, hoy);
      && (forall t :: t in r.faltantesEsenciales <==> t in Esenciales && forall d :: d in docs ==> Lower(d.tipo) != t)
      && (r.completo <==>
            (forall t :: t in Esenciales ==> exists d :: d in docs && Lower(d.tipo) == t)
            && (forall d :: d in docs ==> d.vencimiento.None? || d.vencimiento.value > hoy + 15))
  {
    var r := Validar(docs, hoy);
    var presentes := TiposPresentes(docs);
    FaltantesExactly(Esenciales, presentes);
    forall d | d in docs ensures d in Criticos(docs, hoy) <==> d.vencimiento.Some? && d.vencimiento.value <= hoy + 15 {
      CriticosMeans(docs, hoy, d);
    }
    if r.criticos != [] {
      CriticosMeans(docs, hoy, r.criticos[0]);
    }
    if r.faltantesEsenciales != [] {
      assert r.faltantesEsenciales[0] in r.faltantesEsenciales;
    }
  }
}
