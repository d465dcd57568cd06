/**
 * app.py, the SQLite iteration of the program: anchor extraction, the batch
 * merge of one site's topics against a snapshot taken once, the scan of every
 * site, the `estado` read of `/api/temas` and the two seeding endpoints.
 */
module Monolith {
  import opened Wrappers
  import opened Text
  import opened Selection
  import opened Web
  import opened Store
  import opened Freshness

  // ---------------------------------------------------------------------
  // obtener_temas_de_web

  /** The one selector the scan uses for every site. */
  const SCAN_SELECTOR: string := ".tema-destacado a"

  /**
   * One selected element: an `<a>` becomes (stripped text, absolute href),
   * whatever the text; any other tag is skipped.
   */
  function Candidate(pageUrl: string, e: Element): Option<Par> {
    if e.name == "a" then Some(Par(Strip(e.text), Absolutize(pageUrl, e.HrefOrEmpty()))) else None
  }

  function CandidateOf(pageUrl: string): Element -> Option<Par> {
    (e: Element) => Candidate(pageUrl, e)
  }

  /** The pairs extracted from the selected elements, in selection order. */
  function Topics(pageUrl: string, es: seq<Element>): seq<Par> {
    FilterMap(CandidateOf(pageUrl), es)
  }

  /** A failed fetch, a failed selection or any other exception gives no pairs. */
  function TemasDeWeb(pageUrl: string, selector: string, page: Page): (r: seq<Par>)
    ensures page.FetchError? ==> r == []
    ensures page.Fetched? && page.select(selector).None? ==> r == []
  {
    match page
    case FetchError => []
    case Fetched(select) =>
      match select(selector)
      case None => []
      case Some(es) => Topics(pageUrl, es)
  }

  /** `obtener_temas_de_web(medio_id, url, selector_temas)` on the page fetched from `url`. */
  method ObtenerTemasDeWeb(medioId: int, url: string, selector: string, page: Page) returns (temas: seq<Par>)
    ensures temas == TemasDeWeb(url, selector, page)
  {
    if page.FetchError? {
      return [];
    }
    var selected := page.select(selector);
    if selected.None? {
      return [];
    }
    temas := ExtractTopics(url, selected.value);
  }

  /** The loop over the selected elements. */
  method ExtractTopics(url: string, elementos: seq<Element>) returns (temas: seq<Par>)
    ensures temas == Topics(url, elementos)
  {
    temas := [];
    var i := 0;
    while i < |elementos|
      invariant 0 <= i <= |elementos|
      invariant temas == Topics(url, elementos[..i])
    {
      var c := ExtractOne(url, elementos[i]);
      FilterMapStep(CandidateOf(url), elementos, i, temas, c);
      if c.Some? {
        temas := temas + [c.value];
      }
      i := i + 1;
    }
    assert elementos[..i] == elementos;
  }

  /** One element of the loop: an `<a>` gives its stripped text and resolved href. */
  method ExtractOne(url: string, elemento: Element) returns (c: Option<Par>)
    ensures c == CandidateOf(url)(elemento)
  {
    if elemento.name == "a" {
      var nombre := Strip(elemento.text);
      var urlTema := ResolveUrl(url, elemento.HrefOrEmpty());
      c := Some(Par(nombre, urlTema));
    } else {
      c := None;
    }
  }

  /**
   * Extraction keeps exactly the `<a>` elements, in selection order, each
   * giving its stripped text and its resolved href; it never yields more
   * pairs than elements.
   */
  lemma {:induction false} TopicsSpec(pageUrl: string, es: seq<Element>)
    ensures var r := Topics(pageUrl, es);
      var p := KeptPositions(CandidateOf(pageUrl), es);
      && |r| <= |es| && |p| == |r|
      && (forall i :: 0 <= i < |es| ==> (es[i].name == "a" <==> i in p))
      && (forall k, l :: 0 <= k < l < |p| ==> p[k] < p[l])
      && (forall k :: 0 <= k < |p| ==>
            p[k] < |es| && r[k] == Par(Strip(es[p[k]].text), Absolutize(pageUrl, es[p[k]].HrefOrEmpty())))
  {
    FilterMapPositions(CandidateOf(pageUrl), es);
  }

  /**
   * Unlike the split iteration, nothing but the tag is checked: when every
   * element is an `<a>`, every one yields a pair, empty names included.
   */
  lemma {:induction false} TopicsKeepsEveryAnchor(pageUrl: string, es: seq<Element>)
    requires forall i :: 0 <= i < |es| ==> es[i].name == "a"
    ensures |Topics(pageUrl, es)| == |es|
    ensures forall k :: 0 <= k < |es| ==> Topics(pageUrl, es)[k].nombre == Strip(es[k].text)
  {
    FilterMapKeepsAll(CandidateOf(pageUrl), es);
  }

  // ---------------------------------------------------------------------
  // actualizar_temas_en_db

  /** The (nombre, url) keys of the site's stored topics, read once before the loop. */
  function Snapshot(rows: seq<Tema>, medioId: int): set<Par> {
    set k | 0 <= k < |rows| && rows[k].medioId == medioId :: Par(rows[k].nombre, rows[k].url)
  }

  /**
   * The loop over the current pairs against a fixed snapshot: a pair in the
   * snapshot updates `ultima_vez` of the site's rows holding it; any other
   * pair inserts a row with both timestamps `now`.
   */
  function MergeFrom(t: TemaTable, medioId: int, snap: set<Par>, pairs: seq<Par>, now: int): TemaTable {
    if |pairs| == 0 then t
    else MergeOne(MergeFrom(t, medioId, snap, pairs[..|pairs| - 1], now), medioId, snap, pairs[|pairs| - 1], now)
  }

  /** One iteration of the loop. */
  function MergeOne(t: TemaTable, medioId: int, snap: set<Par>, p: Par, now: int): TemaTable {
    if p in snap then TemaTable(SetUltimaVez(t.rows, ByTriple(medioId, p.nombre, p.url), now), t.nextId)
    else InsertTema(t, medioId, p.nombre, p.url, now, now)
  }

  /** `actualizar_temas_en_db(medio_id, temas_actuales)` with the time it reads. */
  function Merge(t: TemaTable, medioId: int, pairs: seq<Par>, now: int): TemaTable {
    MergeFrom(t, medioId, Snapshot(t.rows, medioId), pairs, now)
  }

  method ActualizarTemasEnDb(db: Database, medioId: int, temasActuales: seq<Par>, now: int)
    requires db.Valid()
    modifies db
    ensures db.Valid()
    ensures db.temas == Merge(old(db.temas), medioId, temasActuales, now)
    ensures db.registry == old(db.registry) && db.competidores == old(db.competidores)
  {
    var existentes := Snapshot(db.temas.rows, medioId);
    var i := 0;
    while i < |temasActuales|
      invariant 0 <= i <= |temasActuales|
      invariant db.Valid()
      invariant db.temas == MergeFrom(old(db.temas), medioId, existentes, temasActuales[..i], now)
      invariant db.registry == old(db.registry) && db.competidores == old(db.competidores)
    {
      var p := temasActuales[i];
      assert temasActuales[..i + 1][..i] == temasActuales[..i];
      assert MergeFrom(old(db.temas), medioId, existentes, temasActuales[..i + 1], now)
        == MergeOne(db.temas, medioId, existentes, p, now);
      if p in existentes {
        db.temas := TemaTable(SetUltimaVez(db.temas.rows, ByTriple(medioId, p.nombre, p.url), now), db.temas.nextId);
      } else {
        db.temas := InsertTema(db.temas, medioId, p.nombre, p.url, now, now);
      }
      i := i + 1;
    }
    assert temasActuales[..i] == temasActuales;
  }

  /** The snapshot pairs the input mentions. */
  function Touched(pairs: seq<Par>, snap: set<Par>): set<Par> {
    set p | p in pairs && p in snap
  }

  function FreshOf(snap: set<Par>): Par -> Option<Par> {
    (p: Par) => if p in snap then None else Some(p)
  }

  /** The input occurrences absent from the snapshot, in order, repeats included. */
  function Fresh(pairs: seq<Par>, snap: set<Par>): seq<Par> {
    FilterMap(FreshOf(snap), pairs)
  }

  /** The stored rows after the updates: the site's rows holding a touched pair get `now`. */
  function Bumped(rows: seq<Tema>, medioId: int, touched: set<Par>, now: int): (r: seq<Tema>)
    ensures |r| == |rows|
    ensures forall k :: 0 <= k < |rows| ==>
      r[k] == if rows[k].medioId == medioId && Par(rows[k].nombre, rows[k].url) in touched
              then rows[k].(ultimaVez := now) else rows[k]
  {
    seq(|rows|, k requires 0 <= k < |rows| =>
      if rows[k].medioId == medioId && Par(rows[k].nombre, rows[k].url) in touched
      then rows[k].(ultimaVez := now) else rows[k])
  }

  /** The inserted rows: consecutive ids, both timestamps `now`. */
  function NewRows(nextId: int, medioId: int, added: seq<Par>, now: int): (r: seq<Tema>)
    ensures |r| == |added|
    ensures forall k :: 0 <= k < |added| ==> r[k] == Tema(nextId + k, medioId, added[k].nombre, added[k].url, now, now)
  {
    seq(|added|, k requires 0 <= k < |added| => Tema(nextId + k, medioId, added[k].nombre, added[k].url, now, now))
  }

  lemma FreshNotInSnapshot(pairs: seq<Par>, snap: set<Par>)
    ensures forall k :: 0 <= k < |Fresh(pairs, snap)| ==> Fresh(pairs, snap)[k] !in snap
  {
    FilterMapPreserves(FreshOf(snap), pairs, (p: Par) => true, (p: Par) => p !in snap);
  }

  /** An update of a snapshot pair reaches the stored rows holding it and none of the new rows. */
  lemma MergeStepUpdate(rows: seq<Tema>, nextId: int, medioId: int, touched: set<Par>, added: seq<Par>, p: Par, now: int)
    requires forall k :: 0 <= k < |added| ==> added[k] != p
    ensures SetUltimaVez(Bumped(rows, medioId, touched, now) + NewRows(nextId, medioId, added, now),
                         ByTriple(medioId, p.nombre, p.url), now)
      == Bumped(rows, medioId, touched + {p}, now) + NewRows(nextId, medioId, added, now)
  {
    var before := Bumped(rows, medioId, touched, now) + NewRows(nextId, medioId, added, now);
    var res := SetUltimaVez(before, ByTriple(medioId, p.nombre, p.url), now);
    var want := Bumped(rows, medioId, touched + {p}, now) + NewRows(nextId, medioId, added, now);
    forall k | 0 <= k < |res|
      ensures res[k] == want[k]
    {
      if k >= |rows| {
        assert added[k - |rows|] != p;
      }
    }
  }

  /** An insert appends the next new row. */
  lemma MergeStepInsert(rows: seq<Tema>, nextId: int, medioId: int, touched: set<Par>, added: seq<Par>, p: Par, now: int)
    ensures Bumped(rows, medioId, touched, now) + NewRows(nextId, medioId, added, now)
              + [Tema(nextId + |added|, medioId, p.nombre, p.url, now, now)]
      == Bumped(rows, medioId, touched, now) + NewRows(nextId, medioId, added + [p], now)
  {
    var res := Bumped(rows, medioId, touched, now) + NewRows(nextId, medioId, added, now)
                 + [Tema(nextId + |added|, medioId, p.nombre, p.url, now, now)];
    var want := Bumped(rows, medioId, touched, now) + NewRows(nextId, medioId, added + [p], now);
    forall k | 0 <= k < |res|
      ensures res[k] == want[k]
    {
    }
  }

  /**
   * The merge, in closed form: the stored rows with `ultima_vez` bumped where
   * their pair is in the snapshot and in the input, followed by one new row per
   * input occurrence outside the snapshot.
   */
  lemma {:induction false} MergeMeaning(t: TemaTable, medioId: int, snap: set<Par>, pairs: seq<Par>, now: int)
    ensures MergeFrom(t, medioId, snap, pairs, now)
      == TemaTable(Bumped(t.rows, medioId, Touched(pairs, snap), now)
                     + NewRows(t.nextId, medioId, Fresh(pairs, snap), now),
                   t.nextId + |Fresh(pairs, snap)|)
  {
    if |pairs| == 0 {
      assert Touched(pairs, snap) == {};
      BumpedNothing(t.rows, medioId, now);
    } else {
      var init := pairs[..|pairs| - 1];
      var p := pairs[|pairs| - 1];
      MergeMeaning(t, medioId, snap, init, now);
      MergeSnoc(snap, pairs);
      FreshNotInSnapshot(init, snap);
      MergeOneClosed(MergeFrom(t, medioId, snap, init, now), t.rows, t.nextId, medioId, snap,
                     Touched(init, snap), Fresh(init, snap), Touched(pairs, snap), Fresh(pairs, snap), p, now);
    }
  }

  lemma BumpedNothing(rows: seq<Tema>, medioId: int, now: int)
    ensures Bumped(rows, medioId, {}, now) == rows
  {
  }

  /** How the touched pairs and the fresh occurrences grow with one more input pair. */
  lemma MergeSnoc(snap: set<Par>, pairs: seq<Par>)
    requires |pairs| > 0
    ensures var init := pairs[..|pairs| - 1];
      var p := pairs[|pairs| - 1];
      && Touched(pairs, snap) == Touched(init, snap) + (if p in snap then {p} else {})
      && Fresh(pairs, snap) == Fresh(init, snap) + (if p in snap then [] else [p])
  {
    var init := pairs[..|pairs| - 1];
    var p := pairs[|pairs| - 1];
    assert pairs == init + [p];
    FilterMapSnoc(FreshOf(snap), init, p);
  }

  /** One iteration applied to a table in closed form gives the closed form one pair further. */
  lemma MergeOneClosed(mid: TemaTable, rows: seq<Tema>, nextId: int, medioId: int, snap: set<Par>,
                       touched: set<Par>, added: seq<Par>, touched': set<Par>, added': seq<Par>, p: Par, now: int)
    requires mid == TemaTable(Bumped(rows, medioId, touched, now) + NewRows(nextId, medioId, added, now),
                              nextId + |added|)
    requires forall k :: 0 <= k < |added| ==> added[k] !in snap
    requires touched' == touched + (if p in snap then {p} else {})
    requires added' == added + (if p in snap then [] else [p])
    ensures MergeOne(mid, medioId, snap, p, now)
      == TemaTable(Bumped(rows, medioId, touched', now) + NewRows(nextId, medioId, added', now), nextId + |added'|)
  {
    if p in snap {
      MergeStepUpdate(rows, nextId, medioId, touched, added, p, now);
      assert added + [] == added;
    } else {
      MergeStepInsert(rows, nextId, medioId, touched, added, p, now);
      assert touched + {} == touched;
    }
  }

  /**
   * What a merge does to the table: every stored row keeps its id, site,
   * name, url and `primera_vez`; the site's rows whose pair is in the input get
   * `ultima_vez := now`, all other rows (other sites included) are untouched;
   * after them come the new rows, with `primera_vez = ultima_vez = now`.
   */
  lemma {:induction false} MergeSpec(t: TemaTable, medioId: int, pairs: seq<Par>, now: int)
    ensures var r := Merge(t, medioId, pairs, now);
      && |r.rows| == |t.rows| + |Fresh(pairs, Snapshot(t.rows, medioId))|
      && (forall k :: 0 <= k < |t.rows| ==>
            r.rows[k] == if t.rows[k].medioId == medioId && Par(t.rows[k].nombre, t.rows[k].url) in pairs
                         then t.rows[k].(ultimaVez := now) else t.rows[k])
      && (forall k :: |t.rows| <= k < |r.rows| ==>
            r.rows[k].medioId == medioId && r.rows[k].primeraVez == now && r.rows[k].ultimaVez == now
            && Par(r.rows[k].nombre, r.rows[k].url) !in Snapshot(t.rows, medioId))
  {
    var snap := Snapshot(t.rows, medioId);
    MergeMeaning(t, medioId, snap, pairs, now);
    FreshNotInSnapshot(pairs, snap);
    forall k | 0 <= k < |t.rows| && t.rows[k].medioId == medioId
      ensures Par(t.rows[k].nombre, t.rows[k].url) in snap
    {
    }
  }

  /**
   * Because the snapshot is not refreshed, a pair new to the site that occurs
   * twice in one input is inserted twice.
   */
  lemma MergeInsertsRepeatsTwice(t: TemaTable, medioId: int, p: Par, now: int)
    requires p !in Snapshot(t.rows, medioId)
    ensures var r := Merge(t, medioId, [p, p], now);
      && |r.rows| == |t.rows| + 2
      && r.rows[|t.rows|].nombre == r.rows[|t.rows| + 1].nombre == p.nombre
      && r.rows[|t.rows|].url == r.rows[|t.rows| + 1].url == p.url
  {
    var snap := Snapshot(t.rows, medioId);
    MergeMeaning(t, medioId, snap, [p, p], now);
    FilterMapSnoc(FreshOf(snap), [p], p);
    FilterMapSnoc(FreshOf(snap), [], p);
    assert [p] + [p] == [p, p];
    assert Fresh([p, p], snap) == [p, p];
  }

  // ---------------------------------------------------------------------
  // escanear_todos_los_medios

  /**
   * The scan of the given sites, in order: each one's page is fetched,
   * extracted with the fixed selector and merged; the merge of the i-th site
   * reads the clock value `clock(i)`.
   */
  function ScanFrom(t: TemaTable, medios: seq<Medio>, fetch: string -> Page, clock: nat -> int): TemaTable {
    if |medios| == 0 then t
    else
      var n := |medios| - 1;
      Merge(ScanFrom(t, medios[..n], fetch, clock), medios[n].id,
            TemasDeWeb(medios[n].url, SCAN_SELECTOR, fetch(medios[n].url)), clock(n))
  }

  method EscanearTodosLosMedios(db: Database, fetch: string -> Page, clock: nat -> int)
    requires db.Valid()
    modifies db
    ensures db.Valid()
    ensures db.temas == ScanFrom(old(db.temas), old(db.registry.rows), fetch, clock)
    ensures db.registry == old(db.registry) && db.competidores == old(db.competidores)
  {
    var medios := db.registry.rows;
    var i := 0;
    while i < |medios|
      invariant 0 <= i <= |medios|
      invariant db.Valid()
      invariant db.temas == ScanFrom(old(db.temas), medios[..i], fetch, clock)
      invariant db.registry == old(db.registry) && db.competidores == old(db.competidores)
    {
      var medio := medios[i];
      var temas := ObtenerTemasDeWeb(medio.id, medio.url, SCAN_SELECTOR, fetch(medio.url));
      ScanStep(old(db.temas), medios, i, fetch, clock);
      ActualizarTemasEnDb(db, medio.id, temas, clock(i));
      i := i + 1;
    }
    assert medios[..i] == medios;
  }

  lemma ScanStep(t: TemaTable, medios: seq<Medio>, i: nat, fetch: string -> Page, clock: nat -> int)
    requires i < |medios|
    ensures ScanFrom(t, medios[..i + 1], fetch, clock)
      == Merge(ScanFrom(t, medios[..i], fetch, clock), medios[i].id,
               TemasDeWeb(medios[i].url, SCAN_SELECTOR, fetch(medios[i].url)), clock(i))
  {
    assert medios[..i + 1][..i] == medios[..i];
  }

  /** `b` extends `a`: no row is lost, and a kept row differs at most in `ultima_vez`. */
  predicate KeepsHistory(a: seq<Tema>, b: seq<Tema>) {
    |a| <= |b| && forall k :: 0 <= k < |a| ==> b[k] == a[k].(ultimaVez := b[k].ultimaVez)
  }

  lemma MergeKeepsHistory(t: TemaTable, medioId: int, pairs: seq<Par>, now: int)
    ensures KeepsHistory(t.rows, Merge(t, medioId, pairs, now).rows)
  {
    MergeSpec(t, medioId, pairs, now);
  }

  /**
   * A scan never forgets: every topic stored before it is still stored, with
   * the same id, site, name, url and `primera_vez`.
   */
  lemma {:induction false} ScanKeepsHistory(t: TemaTable, medios: seq<Medio>, fetch: string -> Page, clock: nat -> int)
    ensures KeepsHistory(t.rows, ScanFrom(t, medios, fetch, clock).rows)
  {
    if |medios| > 0 {
      var n := |medios| - 1;
      var mid := ScanFrom(t, medios[..n], fetch, clock);
      ScanKeepsHistory(t, medios[..n], fetch, clock);
      MergeKeepsHistory(mid, medios[n].id, TemasDeWeb(medios[n].url, SCAN_SELECTOR, fetch(medios[n].url)), clock(n));
    }
  }

  // ---------------------------------------------------------------------
  // obtener_temas (GET /api/temas)

  /** A row of the `/api/temas` answer; `duracion` is in seconds. */
  datatype TemaEstado = TemaEstado(id: int, nombre: string, url: string, primeraVez: int, ultimaVez: int,
                                   medio: string, tipoMedio: string, duracion: int, estado: string)

  /** `m.tipo = tipo` unless tipo is "todos"; the state named by the age of the topic. */
  function EstadoRow(tipo: string, now: int, j: Joined): Option<TemaEstado> {
    if tipo != "todos" && j.medio.tipo != tipo then None
    else
      var e := now - j.tema.primeraVez;
      Some(TemaEstado(j.tema.id, j.tema.nombre, j.tema.url, j.tema.primeraVez, j.tema.ultimaVez,
                      j.medio.nombre, j.medio.tipo, e, Name(Classify(e))))
  }

  /** The answer row carries the topic's and its site's columns unchanged. */
  predicate RowOf(v: TemaEstado, j: Joined) {
    && v.id == j.tema.id && v.nombre == j.tema.nombre && v.url == j.tema.url
    && v.primeraVez == j.tema.primeraVez && v.ultimaVez == j.tema.ultimaVez
    && v.medio == j.medio.nombre && v.tipoMedio == j.medio.tipo
  }

  function EstadoOf(tipo: string, now: int): Joined -> Option<TemaEstado> {
    (j: Joined) => EstadoRow(tipo, now, j)
  }

  function ObtenerTemas(medios: seq<Medio>, temas: seq<Tema>, tipo: string, now: int): seq<TemaEstado> {
    FilterMap(EstadoOf(tipo, now), JoinTemas(medios, temas))
  }

  lemma {:induction false} EstadoFilterSpec(joined: seq<Joined>, tipo: string, now: int)
    ensures var r := FilterMap(EstadoOf(tipo, now), joined);
      var p := KeptPositions(EstadoOf(tipo, now), joined);
      && |p| == |r|
      && (forall i :: 0 <= i < |joined| ==> ((tipo == "todos" || joined[i].medio.tipo == tipo) <==> i in p))
      && (forall k, l :: 0 <= k < l < |p| ==> p[k] < p[l])
      && (forall k :: 0 <= k < |p| ==>
            p[k] < |joined| && RowOf(r[k], joined[p[k]])
            && r[k].duracion == now - joined[p[k]].tema.primeraVez
            && r[k].estado == Name(Classify(r[k].duracion)))
  {
    FilterMapPositions(EstadoOf(tipo, now), joined);
  }

  /**
   * `/api/temas` answers the joined rows of the requested site type (all of
   * them for "todos"), in store order, each with the state its age gives:
   * under 4 hours "verde", under 24 "amarillo", otherwise "rojo".
   */
  lemma {:induction false} ObtenerTemasSpec(medios: seq<Medio>, temas: seq<Tema>, tipo: string, now: int)
    ensures var joined := JoinTemas(medios, temas);
      var r := ObtenerTemas(medios, temas, tipo, now);
      var p := KeptPositions(EstadoOf(tipo, now), joined);
      && |p| == |r|
      && (forall i :: 0 <= i < |joined| ==> ((tipo == "todos" || joined[i].medio.tipo == tipo) <==> i in p))
      && (forall k, l :: 0 <= k < l < |p| ==> p[k] < p[l])
      && (forall k :: 0 <= k < |p| ==>
            p[k] < |joined| && RowOf(r[k], joined[p[k]])
            && r[k].duracion == now - joined[p[k]].tema.primeraVez
            && r[k].estado == Name(Classify(r[k].duracion)))
  {
    EstadoFilterSpec(JoinTemas(medios, temas), tipo, now);
  }

  // ---------------------------------------------------------------------
  // agregar_medio and agregar_medios_iniciales

  const INCOMPLETE_MESSAGE: string := "Datos incompletos"
  const ADDED_MESSAGE: string := "Medio agregado correctamente"
  const EXISTS_MESSAGE: string := "El medio ya existe"

  /** A site in a request body; a missing key is None. */
  datatype MedioEntry = MedioEntry(nombre: Option<string>, url: Option<string>, tipo: Option<string>)

  predicate Complete(e: MedioEntry) {
    e.nombre.Some? && e.url.Some? && e.tipo.Some?
  }

  function ToData(e: MedioEntry): MedioData
    requires Complete(e)
  {
    MedioData(e.nombre.value, e.url.value, e.tipo.value)
  }

  /** The answer of `POST /api/medios`. */
  datatype AltaAnswer = Added(id: int, mensaje: string) | AlreadyExists(error: string) | Incomplete(error: string)

  function AltaStatus(a: AltaAnswer): int {
    match a
    case Added(_, _) => 201
    case AlreadyExists(_) => 409
    case Incomplete(_) => 400
  }

  /**
   * `agregar_medio`: no body or a missing key is answered 400 and changes
   * nothing; otherwise the insert answers 201 with the new id, or 409 when the
   * name is registered (UNIQUE(nombre)), leaving the registry as it was.
   */
  method AgregarMedio(db: Database, data: Option<MedioEntry>) returns (a: AltaAnswer)
    requires db.Valid()
    modifies db
    ensures db.Valid()
    ensures AltaStatus(a) == 400 <==> data.None? || !Complete(data.value)
    ensures a.Incomplete? ==> a.error == INCOMPLETE_MESSAGE && db.registry == old(db.registry)
    ensures !a.Incomplete? ==>
      && data.Some? && Complete(data.value)
      && (db.registry, if a.Added? then Some(a.id) else None) == RegisterMedio(old(db.registry), ToData(data.value))
    ensures a.Added? ==> a.mensaje == ADDED_MESSAGE
    ensures a.AlreadyExists? ==> a.error == EXISTS_MESSAGE
    ensures db.temas == old(db.temas) && db.competidores == old(db.competidores)
  {
    if data.None? || !Complete(data.value) {
      return Incomplete(INCOMPLETE_MESSAGE);
    }
    var id := db.InsertMedio(ToData(data.value));
    if id.Some? {
      a := Added(id.value, ADDED_MESSAGE);
    } else {
      a := AlreadyExists(EXISTS_MESSAGE);
    }
  }

  /** The number of entries carrying all three keys. */
  function CountComplete(entries: seq<MedioEntry>): (n: nat)
    ensures n <= |entries|
  {
    if |entries| == 0 then 0
    else CountComplete(entries[..|entries| - 1]) + (if Complete(entries[|entries| - 1]) then 1 else 0)
  }

  datatype SeedResult = SeedResult(registry: Registry, agregados: nat, existentes: nat)

  /**
   * The seeding loop: incomplete entries are skipped; each complete one is
   * inserted and counted as added, or counted as existing when the insert
   * fails on UNIQUE(nombre). Every complete entry is counted exactly once, and
   * only added entries grow the registry.
   */
  function Seed(r: Registry, entries: seq<MedioEntry>): (res: SeedResult)
    ensures res.agregados + res.existentes == CountComplete(entries)
    ensures |res.registry.rows| == |r.rows| + res.agregados
    ensures RegistryValid(r) ==> RegistryValid(res.registry)
  {
    if |entries| == 0 then SeedResult(r, 0, 0)
    else
      var prev := Seed(r, entries[..|entries| - 1]);
      var e := entries[|entries| - 1];
      if !Complete(e) then prev
      else
        var (next, id) := RegisterMedio(prev.registry, ToData(e));
        if id.Some? then SeedResult(next, prev.agregados + 1, prev.existentes)
        else SeedResult(next, prev.agregados, prev.existentes + 1)
  }

  /** `agregar_medios_iniciales`: 400 without a `medios` list, else 200 and the two counters. */
  method AgregarMediosIniciales(db: Database, data: Option<seq<MedioEntry>>)
    returns (status: int, agregados: nat, existentes: nat)
    requires db.Valid()
    modifies db
    ensures db.Valid()
    ensures data.None? ==> status == 400 && db.registry == old(db.registry)
    ensures data.Some? ==>
      && status == 200
      && SeedResult(db.registry, agregados, existentes) == Seed(old(db.registry), data.value)
    ensures db.temas == old(db.temas) && db.competidores == old(db.competidores)
  {
    agregados, existentes := 0, 0;
    if data.None? {
      return 400, agregados, existentes;
    }
    var medios := data.value;
    var i := 0;
    while i < |medios|
      invariant 0 <= i <= |medios|
      invariant db.Valid()
      invariant SeedResult(db.registry, agregados, existentes) == Seed(old(db.registry), medios[..i])
      invariant db.temas == old(db.temas) && db.competidores == old(db.competidores)
    {
      agregados, existentes := SeedEntry(db, medios, i, agregados, existentes, old(db.registry));
      i := i + 1;
    }
    assert medios[..i] == medios;
    status := 200;
  }

  /** One iteration of the seeding loop, on the i-th entry. */
  method SeedEntry(db: Database, medios: seq<MedioEntry>, i: nat, agregados: nat, existentes: nat, ghost r0: Registry)
    returns (agregados': nat, existentes': nat)
    requires db.Valid()
    requires i < |medios| && SeedResult(db.registry, agregados, existentes) == Seed(r0, medios[..i])
    modifies db
    ensures db.Valid()
    ensures SeedResult(db.registry, agregados', existentes') == Seed(r0, medios[..i + 1])
    ensures db.temas == old(db.temas) && db.competidores == old(db.competidores)
  {
    SeedStep(r0, medios, i);
    agregados', existentes' := agregados, existentes;
    var medio := medios[i];
    if Complete(medio) {
      var id := db.InsertMedio(ToData(medio));
      if id.Some? {
        agregados' := agregados + 1;
      } else {
        existentes' := existentes + 1;
      }
    }
  }

  lemma SeedStep(r: Registry, entries: seq<MedioEntry>, i: nat)
    requires i < |entries|
    ensures var prev := Seed(r, entries[..i]);
      var e := entries[i];
      Seed(r, entries[..i + 1])
        == if !Complete(e) then prev
           else if RegisterMedio(prev.registry, ToData(e)).1.Some?
           then SeedResult(RegisterMedio(prev.registry, ToData(e)).0, prev.agregados + 1, prev.existentes)
           else SeedResult(RegisterMedio(prev.registry, ToData(e)).0, prev.agregados, prev.existentes + 1)
  {
    assert entries[..i + 1][..i] == entries[..i];
  }

  /** When every complete entry names a registered site, nothing is added and all count as existing. */
  lemma {:induction false} SeedAllExisting(r: Registry, entries: seq<MedioEntry>)
    requires forall i :: 0 <= i < |entries| && Complete(entries[i]) ==> NameTaken(r.rows, entries[i].nombre.value)
    ensures Seed(r, entries) == SeedResult(r, 0, CountComplete(entries))
  {
    if |entries| > 0 {
      var init := entries[..|entries| - 1];
      assert forall i :: 0 <= i < |init| ==> init[i] == entries[i];
      SeedAllExisting(r, init);
    }
  }
}
