/**
 * services/scanner.py, the split iteration of the scan: extraction with a
 * default selector per site type and emptiness filters, the scan of every
 * site through the per-pair upsert with its two counters, and the seeding of
 * the fixed list of own sites.
 */
module Scanner {
  import opened Wrappers
  import opened Text
  import opened Selection
  import opened Web
  import opened Store
  import TemaModel
  import MedioModel

  // ---------------------------------------------------------------------
  // obtener_temas_de_web

  const PROPIO_SELECTOR: string := ".ft-org-header-regionales-menu-panel__tagbar a"
  const COMPETENCIA_SELECTOR: string := "a.tag, a.tema, .tags a"

  /** `if not selector_temas`: a missing or empty selector falls back to the site type's default. */
  function SelectorFor(selector: Option<string>, tipo: string): (s: string)
    ensures selector.Some? && selector.value != "" ==> s == selector.value
    ensures (selector.None? || selector.value == "") && tipo == "propio" ==> s == PROPIO_SELECTOR
    ensures (selector.None? || selector.value == "") && tipo != "propio" ==> s == COMPETENCIA_SELECTOR
  {
    if selector.Some? && selector.value != "" then selector.value
    else if tipo == "propio" then PROPIO_SELECTOR
    else COMPETENCIA_SELECTOR
  }

  /** Whichever branch is taken, the page is queried with a non-empty selector. */
  lemma SelectorForNonEmpty(selector: Option<string>, tipo: string)
    ensures SelectorFor(selector, tipo) != ""
  {
  }

  /** An empty href stays empty; any other is made absolute against the page url. */
  function ResolveHref(pageUrl: string, href: string): string {
    if href != "" && !IsAbsolute(href) then Absolutize(pageUrl, href) else href
  }

  /** Resolution agrees with the shared rule, and only the empty href stays empty. */
  lemma ResolveHrefSpec(pageUrl: string, href: string)
    ensures href == "" ==> ResolveHref(pageUrl, href) == ""
    ensures href != "" ==> ResolveHref(pageUrl, href) == Absolutize(pageUrl, href)
    ensures ResolveHref(pageUrl, href) == "" <==> href == ""
  {
  }

  /** For a page url starting with http(s)://, resolving a resolved url changes nothing. */
  lemma ResolveHrefIdempotent(pageUrl: string, href: string)
    requires IsAbsolute(pageUrl)
    ensures ResolveHref(pageUrl, ResolveHref(pageUrl, href)) == ResolveHref(pageUrl, href)
  {
    if href != "" {
      AbsolutizeIsAbsolute(pageUrl, href);
    }
  }

  /**
   * One selected element, whatever its tag: (stripped text, resolved href),
   * kept only when both are non-empty.
   */
  function Candidate(pageUrl: string, e: Element): Option<Par> {
    var nombre := Strip(e.text);
    var urlTema := ResolveHref(pageUrl, e.HrefOrEmpty());
    if nombre != "" && urlTema != "" then Some(Par(nombre, urlTema)) else None
  }

  function CandidateOf(pageUrl: string): Element -> Option<Par> {
    (e: Element) => Candidate(pageUrl, e)
  }

  function Topics(pageUrl: string, es: seq<Element>): seq<Par> {
    FilterMap(CandidateOf(pageUrl), es)
  }

  /** Any exception (fetch, status, selection) gives no pairs. */
  function TemasDeWeb(pageUrl: string, tipo: string, selector: Option<string>, page: Page): (r: seq<Par>)
    ensures page.FetchError? ==> r == []
    ensures page.Fetched? && page.select(SelectorFor(selector, tipo)).None? ==> r == []
  {
    match page
    case FetchError => []
    case Fetched(select) =>
      match select(SelectorFor(selector, tipo))
      case None => []
      case Some(es) => Topics(pageUrl, es)
  }

  /** `obtener_temas_de_web(medio_id, url, tipo_medio, selector_temas)` on the page fetched from `url`. */
  method ObtenerTemasDeWeb(medioId: int, url: string, tipo: string, selector: Option<string>, page: Page)
    returns (temas: seq<Par>)
    ensures temas == TemasDeWeb(url, tipo, selector, page)
  {
    if page.FetchError? {
      return [];
    }
    var selectorTemas := SelectorFor(selector, tipo);
    var selected := page.select(selectorTemas);
    if selected.None? {
      return [];
    }
    temas := ExtractTopics(url, selected.value);
  }

  /** One element of the loop: strip the text, resolve the href, keep it when both are non-empty. */
  method ExtractOne(url: string, elemento: Element) returns (c: Option<Par>)
    ensures c == CandidateOf(url)(elemento)
  {
    var nombre := Strip(elemento.text);
    var urlTema := elemento.HrefOrEmpty();
    if urlTema != "" && !IsAbsolute(urlTema) {
      urlTema := ResolveUrl(url, urlTema);
    }
    assert urlTema == ResolveHref(url, elemento.HrefOrEmpty());
    if nombre != "" && urlTema != "" {
      c := Some(Par(nombre, urlTema));
    } else {
      c := None;
    }
  }

  /** The loop over the selected elements. */
  method ExtractTopics(url: string, elementos: seq<Element>) returns (temas: seq<Par>)
    ensures temas == Topics(url, elementos)
  {
    temas := [];
    var i := 0;
    while i < |elementos|
      invariant 0 <= i <= |elementos|
      invariant temas == Topics(url, elementos[..i])
    {
      var c := ExtractOne(url, elementos[i]);
      FilterMapStep(CandidateOf(url), elementos, i, temas, c);
      if c.Some? {
        temas := temas + [c.value];
      }
      i := i + 1;
    }
    assert elementos[..i] == elementos;
  }

  lemma {:induction false} CandidateFilterSpec(pageUrl: string, es: seq<Element>)
    ensures var r := Topics(pageUrl, es);
      var p := KeptPositions(CandidateOf(pageUrl), es);
      && |r| <= |es| && |p| == |r|
      && (forall i :: 0 <= i < |es| ==> (Strip(es[i].text) != "" && es[i].HrefOrEmpty() != "" <==> i in p))
      && (forall k, l :: 0 <= k < l < |p| ==> p[k] < p[l])
      && (forall k :: 0 <= k < |p| ==>
            p[k] < |es| && r[k] == Par(Strip(es[p[k]].text), ResolveHref(pageUrl, es[p[k]].HrefOrEmpty())))
  {
    FilterMapPositions(CandidateOf(pageUrl), es);
    forall i | 0 <= i < |es|
      ensures CandidateOf(pageUrl)(es[i]).Some? <==> Strip(es[i].text) != "" && es[i].HrefOrEmpty() != ""
    {
      ResolveHrefSpec(pageUrl, es[i].HrefOrEmpty());
    }
  }

  /**
   * Extraction keeps exactly the elements with a non-empty stripped text and
   * a non-empty href, in selection order, each giving (stripped text, resolved
   * href); it never yields more pairs than elements, and never an empty name
   * or url.
   */
  lemma {:induction false} TopicsSpec(pageUrl: string, es: seq<Element>)
    ensures var r := Topics(pageUrl, es);
      var p := KeptPositions(CandidateOf(pageUrl), es);
      && |r| <= |es| && |p| == |r|
      && (forall i :: 0 <= i < |es| ==> (Strip(es[i].text) != "" && es[i].HrefOrEmpty() != "" <==> i in p))
      && (forall k, l :: 0 <= k < l < |p| ==> p[k] < p[l])
      && (forall k :: 0 <= k < |p| ==>
            p[k] < |es| && r[k] == Par(Strip(es[p[k]].text), ResolveHref(pageUrl, es[p[k]].HrefOrEmpty())))
      && (forall k :: 0 <= k < |r| ==> r[k].nombre != "" && r[k].url != "")
  {
    CandidateFilterSpec(pageUrl, es);
    FilterMapPreserves(CandidateOf(pageUrl), es, (e: Element) => true, (q: Par) => q.nombre != "" && q.url != "");
  }

  // ---------------------------------------------------------------------
  // escanear_todos_los_medios

  /** One call `add_or_update_tema(medio_id, nombre, url)`. */
  datatype Call = Call(medioId: int, nombre: string, url: string)

  /** The pairs extracted for a site, with its type's default selector. */
  function Extracted(m: Medio, fetch: string -> Page): seq<Par> {
    TemasDeWeb(m.url, m.tipo, None, fetch(m.url))
  }

  function CallsFor(medioId: int, pairs: seq<Par>): (r: seq<Call>)
    ensures |r| == |pairs|
    ensures forall k :: 0 <= k < |pairs| ==> r[k] == Call(medioId, pairs[k].nombre, pairs[k].url)
  {
    seq(|pairs|, k requires 0 <= k < |pairs| => Call(medioId, pairs[k].nombre, pairs[k].url))
  }

  /** The upsert calls of a scan, in order: each site's pairs in extraction order. */
  function ScanCalls(medios: seq<Medio>, fetch: string -> Page): seq<Call> {
    if |medios| == 0 then []
    else
      var n := |medios| - 1;
      ScanCalls(medios[..n], fetch) + CallsFor(medios[n].id, Extracted(medios[n], fetch))
  }

  /** `temas_encontrados`: the sum of the lengths of the per-site results. */
  function TotalFound(medios: seq<Medio>, fetch: string -> Page): nat {
    if |medios| == 0 then 0
    else TotalFound(medios[..|medios| - 1], fetch) + |Extracted(medios[|medios| - 1], fetch)|
  }

  /** The upserts applied in order; the k-th one reads the clock value `clock(k)`. */
  function UpsertAll(t: TemaTable, calls: seq<Call>, clock: nat -> int): TemaTable {
    if |calls| == 0 then t
    else
      var n := |calls| - 1;
      TemaModel.Upsert(UpsertAll(t, calls[..n], clock), calls[n].medioId, calls[n].nombre, calls[n].url,
                       None, None, clock(n))
  }

  lemma UpsertAllSnoc(t: TemaTable, calls: seq<Call>, c: Call, clock: nat -> int)
    ensures UpsertAll(t, calls + [c], clock)
      == TemaModel.Upsert(UpsertAll(t, calls, clock), c.medioId, c.nombre, c.url, None, None, clock(|calls|))
  {
    assert (calls + [c])[..|calls|] == calls;
  }

  /**
   * The scan: `medios_procesados` is the number of sites, `temas_encontrados`
   * the number of pairs extracted, and the topic table is the result of one
   * upsert per pair, in order; a site with no pairs causes no call.
   */
  method EscanearTodosLosMedios(db: Database, fetch: string -> Page, clock: nat -> int)
    returns (procesados: nat, encontrados: nat)
    requires db.Valid()
    modifies db
    ensures db.Valid()
    ensures procesados == |old(db.registry.rows)|
    ensures encontrados == TotalFound(old(db.registry.rows), fetch)
    ensures db.temas == UpsertAll(old(db.temas), ScanCalls(old(db.registry.rows), fetch), clock)
    ensures db.registry == old(db.registry) && db.competidores == old(db.competidores)
  {
    var medios := MedioModel.GetAllMedios(db.registry);
    procesados, encontrados := 0, 0;
    var llamadas := 0;
    var i := 0;
    while i < |medios|
      invariant 0 <= i <= |medios|
      invariant db.Valid()
      invariant procesados == i
      invariant encontrados == TotalFound(medios[..i], fetch)
      invariant llamadas == |ScanCalls(medios[..i], fetch)|
      invariant db.temas == UpsertAll(old(db.temas), ScanCalls(medios[..i], fetch), clock)
      invariant db.registry == old(db.registry) && db.competidores == old(db.competidores)
    {
      var n;
      llamadas, n := ScanSite(db, medios, i, fetch, clock, llamadas, old(db.temas));
      encontrados := encontrados + n;
      procesados := procesados + 1;
      i := i + 1;
    }
    assert medios[..i] == medios;
  }

  /** One iteration of the scan: the i-th site's pairs, each upserted in turn. */
  method ScanSite(db: Database, medios: seq<Medio>, i: nat, fetch: string -> Page, clock: nat -> int,
                  llamadas: nat, ghost t0: TemaTable)
    returns (next: nat, found: nat)
    requires db.Valid()
    requires i < |medios|
    requires llamadas == |ScanCalls(medios[..i], fetch)|
    requires db.temas == UpsertAll(t0, ScanCalls(medios[..i], fetch), clock)
    modifies db
    ensures db.Valid()
    ensures found == |Extracted(medios[i], fetch)|
    ensures TotalFound(medios[..i + 1], fetch) == TotalFound(medios[..i], fetch) + found
    ensures next == |ScanCalls(medios[..i + 1], fetch)|
    ensures db.temas == UpsertAll(t0, ScanCalls(medios[..i + 1], fetch), clock)
    ensures db.registry == old(db.registry) && db.competidores == old(db.competidores)
  {
    var medio := medios[i];
    var temas := ObtenerTemasDeWeb(medio.id, medio.url, medio.tipo, None, fetch(medio.url));
    assert temas == Extracted(medio, fetch);
    ScanStep(medios, i, fetch);
    next, found := llamadas, 0;
    if |temas| > 0 {
      next := UpsertPairs(db, medio.id, temas, clock, llamadas, t0, ScanCalls(medios[..i], fetch));
      found := |temas|;
    } else {
      assert CallsFor(medio.id, temas) == [];
      assert ScanCalls(medios[..i], fetch) + [] == ScanCalls(medios[..i], fetch);
    }
  }

  /**
   * The inner loop of the scan: one upsert per pair of a site; `llamadas`
   * counts the upserts of the scan so far, so the k-th reads `clock(k)`.
   */
  method UpsertPairs(db: Database, medioId: int, temas: seq<Par>, clock: nat -> int, llamadas: nat,
                     ghost t0: TemaTable, ghost before: seq<Call>)
    returns (next: nat)
    requires db.Valid()
    requires llamadas == |before| && db.temas == UpsertAll(t0, before, clock)
    modifies db
    ensures db.Valid()
    ensures next == llamadas + |temas|
    ensures db.temas == UpsertAll(t0, before + CallsFor(medioId, temas), clock)
    ensures db.registry == old(db.registry) && db.competidores == old(db.competidores)
  {
    next := llamadas;
    var j := 0;
    assert before + CallsFor(medioId, temas[..0]) == before;
    while j < |temas|
      invariant 0 <= j <= |temas|
      invariant db.Valid()
      invariant next == |before| + j
      invariant db.temas == UpsertAll(t0, before + CallsFor(medioId, temas[..j]), clock)
      invariant db.registry == old(db.registry) && db.competidores == old(db.competidores)
    {
      var par := temas[j];
      CallsForSnoc(before, medioId, temas, j);
      UpsertCall(db, Call(medioId, par.nombre, par.url), clock, next, t0, before + CallsFor(medioId, temas[..j]));
      next := next + 1;
      j := j + 1;
    }
    assert temas[..j] == temas;
  }

  lemma ScanStep(medios: seq<Medio>, i: nat, fetch: string -> Page)
    requires i < |medios|
    ensures ScanCalls(medios[..i + 1], fetch)
      == ScanCalls(medios[..i], fetch) + CallsFor(medios[i].id, Extracted(medios[i], fetch))
    ensures TotalFound(medios[..i + 1], fetch) == TotalFound(medios[..i], fetch) + |Extracted(medios[i], fetch)|
  {
    assert medios[..i + 1][..i] == medios[..i];
  }

  /** `if temas:` a site whose extraction is empty issues no upsert call. */
  lemma ScanSkipsEmpty(medios: seq<Medio>, i: nat, fetch: string -> Page)
    requires i < |medios| && Extracted(medios[i], fetch) == []
    ensures ScanCalls(medios[..i + 1], fetch) == ScanCalls(medios[..i], fetch)
    ensures TotalFound(medios[..i + 1], fetch) == TotalFound(medios[..i], fetch)
  {
    ScanStep(medios, i, fetch);
    assert CallsFor(medios[i].id, Extracted(medios[i], fetch)) == [];
  }

  /** One `add_or_update_tema(medio_id, nombre, url)` call of the scan, the n-th, reading `clock(n)`. */
  method UpsertCall(db: Database, c: Call, clock: nat -> int, n: nat, ghost t0: TemaTable, ghost calls: seq<Call>)
    requires db.Valid()
    requires n == |calls| && db.temas == UpsertAll(t0, calls, clock)
    modifies db
    ensures db.Valid()
    ensures db.temas == UpsertAll(t0, calls + [c], clock)
    ensures db.registry == old(db.registry) && db.competidores == old(db.competidores)
  {
    UpsertAllSnoc(t0, calls, c, clock);
    TemaModel.AddOrUpdateTema(db, c.medioId, c.nombre, c.url, None, None, clock(n));
  }

  lemma {:induction false} CallsForSnoc(before: seq<Call>, medioId: int, temas: seq<Par>, j: nat)
    requires j < |temas|
    ensures before + CallsFor(medioId, temas[..j + 1])
      == (before + CallsFor(medioId, temas[..j])) + [Call(medioId, temas[j].nombre, temas[j].url)]
  {
    var c := Call(medioId, temas[j].nombre, temas[j].url);
    assert CallsFor(medioId, temas[..j + 1]) == CallsFor(medioId, temas[..j]) + [c];
  }

  /** `add_or_update_tema` is called exactly once per extracted pair. */
  lemma {:induction false} ScanCallsCount(medios: seq<Medio>, fetch: string -> Page)
    ensures |ScanCalls(medios, fetch)| == TotalFound(medios, fetch)
  {
    if |medios| > 0 {
      ScanCallsCount(medios[..|medios| - 1], fetch);
    }
  }

  /** No call of a scan carries an empty name or url. */
  lemma {:induction false} ScanCallsNonEmpty(medios: seq<Medio>, fetch: string -> Page)
    ensures forall k :: 0 <= k < |ScanCalls(medios, fetch)| ==>
      ScanCalls(medios, fetch)[k].nombre != "" && ScanCalls(medios, fetch)[k].url != ""
  {
    if |medios| > 0 {
      var n := |medios| - 1;
      ScanCallsNonEmpty(medios[..n], fetch);
      var m := medios[n];
      var page := fetch(m.url);
      if page.Fetched? && page.select(SelectorFor(None, m.tipo)).Some? {
        TopicsSpec(m.url, page.select(SelectorFor(None, m.tipo)).value);
      }
    }
  }

  /** At most one row per (medio, nombre, url). */
  predicate UniqueTriples(rows: seq<Tema>) {
    forall i, j :: 0 <= i < j < |rows| ==>
      !Matches(rows[j], ByTriple(rows[i].medioId, rows[i].nombre, rows[i].url))
  }

  lemma UpsertKeepsUnique(t: TemaTable, medioId: int, nombre: string, url: string, now: int)
    requires TableValid(t) && UniqueTriples(t.rows)
    ensures UniqueTriples(TemaModel.Upsert(t, medioId, nombre, url, None, None, now).rows)
  {
    var w := ByTriple(medioId, nombre, url);
    match TemaModel.FindTema(t.rows, w)
    case Some(i) =>
      TemaModel.UpsertExisting(t, medioId, nombre, url, None, None, now, i);
    case None =>
  }

  /**
   * Unlike the batch merge of the SQLite iteration, a scan through the upsert
   * never stores a topic twice: a table with one row per triple keeps one.
   */
  lemma {:induction false} ScanKeepsUnique(t: TemaTable, calls: seq<Call>, clock: nat -> int)
    requires TableValid(t) && UniqueTriples(t.rows)
    ensures TableValid(UpsertAll(t, calls, clock)) && UniqueTriples(UpsertAll(t, calls, clock).rows)
  {
    if |calls| > 0 {
      var n := |calls| - 1;
      ScanKeepsUnique(t, calls[..n], clock);
      var mid := UpsertAll(t, calls[..n], clock);
      UpsertKeepsUnique(mid, calls[n].medioId, calls[n].nombre, calls[n].url, clock(n));
      TemaModel.UpsertValid(mid, calls[n].medioId, calls[n].nombre, calls[n].url, None, None, clock(n));
    }
  }

  // ---------------------------------------------------------------------
  // agregar_medios_prensa

  /** The fixed list of own sites. */
  const MEDIOS_PROPIOS: seq<MedioData> := [
    MedioData("Diari de Girona", "https://www.diaridegirona.cat/", "propio"),
    MedioData("Diario Córdoba", "https://www.diariocordoba.com/", "propio"),
    MedioData("Diario de Ibiza", "https://www.diariodeibiza.es/", "propio"),
    MedioData("Información", "https://www.informacion.es/", "propio"),
    MedioData("Diario de Mallorca", "https://www.diariodemallorca.es/", "propio"),
    MedioData("El Día", "https://www.eldia.es/", "propio"),
    MedioData("Empordà", "https://www.emporda.info/", "propio"),
    MedioData("El Periódico de Aragón", "https://www.elperiodicodearagon.com/", "propio"),
    MedioData("El Periódico Extremadura", "https://www.elperiodicoextremadura.com/", "propio"),
    MedioData("El Periódico Mediterráneo", "https://www.elperiodicomediterraneo.com/", "propio"),
    MedioData("Faro de Vigo", "https://www.farodevigo.es/", "propio"),
    MedioData("La Crónica de Badajoz", "https://www.lacronicabadajoz.com/", "propio"),
    MedioData("La Nueva España", "https://www.lne.es/", "propio"),
    MedioData("La Opinión A Coruña", "https://www.laopinioncoruna.es/", "propio"),
    MedioData("La Opinión de Murcia", "https://www.laopiniondemurcia.es/", "propio"),
    MedioData("La Opinión de Málaga", "https://www.laopiniondemalaga.es/", "propio"),
    MedioData("La Opinión de Zamora", "https://www.laopiniondezamora.es/", "propio"),
    MedioData("La Provincia", "https://www.laprovincia.es/", "propio"),
    MedioData("Levante-EMV", "https://www.levante-emv.com/", "propio"),
    MedioData("Mallorca Zeitung", "https://www.mallorcazeitung.es/", "propio"),
    MedioData("Regió7", "https://www.regio7.cat/", "propio"),
    MedioData("Superdeporte", "https://www.superdeporte.es/", "propio"),
    MedioData("El Correo Gallego", "https://www.elcorreogallego.es/", "propio"),
    MedioData("El Correo Web", "https://www.elcorreoweb.es/", "propio"),
    MedioData("EPE", "https://www.epe.es/es/", "propio"),
    MedioData("El Periódico", "https://www.elperiodico.com/es/", "propio"),
    MedioData("Sport", "https://www.sport.es/es/", "propio")
  ]

  lemma RegisterAllStep(r: Registry, ds: seq<MedioData>, i: nat)
    requires i < |ds|
    ensures RegisterAll(r, ds[..i + 1]) == RegisterMedio(RegisterAll(r, ds[..i]), ds[i]).0
  {
    assert ds[..i + 1][..i] == ds[..i];
  }

  /**
   * `agregar_medios_prensa`: `add_medio` for each listed site, in order; a 201
   * counts as added, any other status as existing, so the counters add up to
   * the length of the list and the registry grows by the number added.
   */
  method AgregarMediosPrensa(db: Database) returns (agregados: nat, existentes: nat)
    requires db.Valid()
    modifies db
    ensures db.Valid()
    ensures db.registry == RegisterAll(old(db.registry), MEDIOS_PROPIOS)
    ensures |db.registry.rows| == |old(db.registry.rows)| + agregados
    ensures agregados + existentes == 27
    ensures db.temas == old(db.temas) && db.competidores == old(db.competidores)
  {
    agregados, existentes := AddEach(db, MEDIOS_PROPIOS);
  }

  /** The loop of `agregar_medios_prensa` over a list of sites. */
  method AddEach(db: Database, medios: seq<MedioData>) returns (agregados: nat, existentes: nat)
    requires db.Valid()
    modifies db
    ensures db.Valid()
    ensures db.registry == RegisterAll(old(db.registry), medios)
    ensures |db.registry.rows| == |old(db.registry.rows)| + agregados
    ensures agregados + existentes == |medios|
    ensures db.temas == old(db.temas) && db.competidores == old(db.competidores)
  {
    agregados, existentes := 0, 0;
    var i := 0;
    while i < |medios|
      invariant 0 <= i <= |medios|
      invariant db.Valid()
      invariant db.registry == RegisterAll(old(db.registry), medios[..i])
      invariant |db.registry.rows| == |old(db.registry.rows)| + agregados
      invariant agregados + existentes == i
      invariant db.temas == old(db.temas) && db.competidores == old(db.competidores)
    {
      var added := AddOne(db, medios, i, old(db.registry));
      if added {
        agregados := agregados + 1;
      } else {
        existentes := existentes + 1;
      }
      i := i + 1;
    }
    assert medios[..i] == medios;
  }

  /** The i-th `add_medio` call: true for a 201, when the registry gained the row. */
  method AddOne(db: Database, medios: seq<MedioData>, i: nat, ghost r0: Registry) returns (added: bool)
    requires db.Valid()
    requires i < |medios| && db.registry == RegisterAll(r0, medios[..i])
    modifies db
    ensures db.Valid()
    ensures db.registry == RegisterAll(r0, medios[..i + 1])
    ensures |db.registry.rows| == |old(db.registry.rows)| + (if added then 1 else 0)
    ensures db.temas == old(db.temas) && db.competidores == old(db.competidores)
  {
    RegisterAllStep(r0, medios, i);
    var medio := medios[i];
    var resultado := MedioModel.AddMedio(db, medio.nombre, medio.url, medio.tipo);
    added := MedioModel.Status(resultado) == 201;
  }
}
