/**
 * models/tema.py: the topic upsert that the scanner calls once per extracted
 * pair, the two read paths of the API (`get_temas`, in its effective second
 * definition, and `get_temas_por_dominio`) and the topic count.
 */
module TemaModel {
  import opened Wrappers
  import opened Text
  import opened Selection
  import opened Web
  import opened Store
  import opened Freshness

  /**
   * `SELECT ... WHERE <w>` followed by `fetchone()`: the index of the first
   * matching row in store order.
   */
  function FindTema(rows: seq<Tema>, w: Where): (r: Option<nat>)
    ensures r.Some? ==> r.value < |rows| && Matches(rows[r.value], w)
    ensures r.Some? ==> forall k :: 0 <= k < r.value ==> !Matches(rows[k], w)
    ensures r.None? ==> forall k :: 0 <= k < |rows| ==> !Matches(rows[k], w)
  {
    if |rows| == 0 then None
    else if Matches(rows[0], w) then Some(0)
    else match FindTema(rows[1..], w)
      case None => None
      case Some(i) => Some(i + 1)
  }

  /**
   * The effect of `add_or_update_tema`: the row the lookup by (medio, nombre,
   * url) fetches gets `ultima_vez := now`; without one, a new row is inserted
   * with `primera_vez` (default now) and `ultima_vez := now`. `now` is the
   * `ultima_vez` argument when given, otherwise the clock.
   */
  function Upsert(t: TemaTable, medioId: int, nombre: string, url: string,
                  primeraVez: Option<int>, ultimaVez: Option<int>, clock: int): TemaTable
  {
    var now := ultimaVez.GetOr(clock);
    match FindTema(t.rows, ByTriple(medioId, nombre, url))
    case Some(i) => TemaTable(SetUltimaVez(t.rows, ById(t.rows[i].id), now), t.nextId)
    case None => InsertTema(t, medioId, nombre, url, primeraVez.GetOr(now), now)
  }

  /** The number of rows holding a given (medio, nombre, url). */
  function CountTriple(rows: seq<Tema>, w: Where): (n: nat)
    ensures n <= |rows|
    ensures n == 0 <==> forall k :: 0 <= k < |rows| ==> !Matches(rows[k], w)
  {
    if |rows| == 0 then 0
    else CountTriple(rows[..|rows| - 1], w) + (if Matches(rows[|rows| - 1], w) then 1 else 0)
  }

  /** Updating a column the predicate does not read leaves the count alone. */
  lemma {:induction false} CountTripleBump(rows: seq<Tema>, w: Where, id: int, now: int)
    requires w.ByTriple?
    ensures CountTriple(SetUltimaVez(rows, ById(id), now), w) == CountTriple(rows, w)
  {
    if |rows| > 0 {
      var init := rows[..|rows| - 1];
      var r := SetUltimaVez(rows, ById(id), now);
      assert r[..|r| - 1] == SetUltimaVez(init, ById(id), now);
      CountTripleBump(init, w, id, now);
    }
  }

  lemma CountTripleSnoc(rows: seq<Tema>, x: Tema, w: Where)
    ensures CountTriple(rows + [x], w) == CountTriple(rows, w) + (if Matches(x, w) then 1 else 0)
  {
    assert (rows + [x])[..|rows|] == rows;
  }

  /** The topic table, imperatively. */
  method AddOrUpdateTema(db: Database, medioId: int, nombre: string, url: string,
                         primeraVez: Option<int>, ultimaVez: Option<int>, clock: int)
    requires db.Valid()
    modifies db
    ensures db.Valid()
    ensures db.temas == Upsert(old(db.temas), medioId, nombre, url, primeraVez, ultimaVez, clock)
    ensures db.registry == old(db.registry) && db.competidores == old(db.competidores)
  {
    var now := ultimaVez.GetOr(clock);
    var existente := FindTema(db.temas.rows, ByTriple(medioId, nombre, url));
    if existente.Some? {
      var id := db.temas.rows[existente.value].id;
      db.temas := TemaTable(SetUltimaVez(db.temas.rows, ById(id), now), db.temas.nextId);
    } else {
      db.temas := InsertTema(db.temas, medioId, nombre, url, primeraVez.GetOr(now), now);
    }
  }

  /** Ids are a key: the update by the fetched row's id touches that row only. */
  lemma SetUltimaVezById(rows: seq<Tema>, i: nat, now: int)
    requires i < |rows|
    requires forall a, b :: 0 <= a < b < |rows| ==> rows[a].id < rows[b].id
    ensures forall k :: 0 <= k < |rows| ==>
      SetUltimaVez(rows, ById(rows[i].id), now)[k] == if k == i then rows[i].(ultimaVez := now) else rows[k]
  {
  }

  /**
   * A continuation: when a row holds the triple, only the first such row
   * changes, and only in `ultima_vez`; no row is added.
   */
  lemma UpsertExisting(t: TemaTable, medioId: int, nombre: string, url: string,
                       primeraVez: Option<int>, ultimaVez: Option<int>, clock: int, i: nat)
    requires TableValid(t)
    requires i < |t.rows| && Matches(t.rows[i], ByTriple(medioId, nombre, url))
    requires forall k :: 0 <= k < i ==> !Matches(t.rows[k], ByTriple(medioId, nombre, url))
    ensures var r := Upsert(t, medioId, nombre, url, primeraVez, ultimaVez, clock);
      && r.nextId == t.nextId && |r.rows| == |t.rows|
      && r.rows[i] == t.rows[i].(ultimaVez := ultimaVez.GetOr(clock))
      && (forall k :: 0 <= k < |t.rows| && k != i ==> r.rows[k] == t.rows[k])
  {
    var w := ByTriple(medioId, nombre, url);
    assert FindTema(t.rows, w) == Some(i);
    SetUltimaVezById(t.rows, i, ultimaVez.GetOr(clock));
  }

  /**
   * A new topic: when no row holds the triple, one row is appended with the
   * next id; with no `primera_vez` argument its two timestamps are equal.
   */
  lemma UpsertNew(t: TemaTable, medioId: int, nombre: string, url: string,
                  primeraVez: Option<int>, ultimaVez: Option<int>, clock: int)
    requires forall k :: 0 <= k < |t.rows| ==> !Matches(t.rows[k], ByTriple(medioId, nombre, url))
    ensures var r := Upsert(t, medioId, nombre, url, primeraVez, ultimaVez, clock);
      var now := ultimaVez.GetOr(clock);
      && r.rows == t.rows + [Tema(t.nextId, medioId, nombre, url, primeraVez.GetOr(now), now)]
      && r.nextId == t.nextId + 1
      && (primeraVez.None? ==> r.rows[|t.rows|].primeraVez == r.rows[|t.rows|].ultimaVez)
  {
  }

  /**
   * The upsert keeps at most one row per triple: starting from at most one,
   * there is exactly one afterwards.
   */
  lemma UpsertCount(t: TemaTable, medioId: int, nombre: string, url: string,
                    primeraVez: Option<int>, ultimaVez: Option<int>, clock: int)
    ensures var w := ByTriple(medioId, nombre, url);
      var r := Upsert(t, medioId, nombre, url, primeraVez, ultimaVez, clock);
      CountTriple(r.rows, w) == if CountTriple(t.rows, w) == 0 then 1 else CountTriple(t.rows, w)
  {
    var w := ByTriple(medioId, nombre, url);
    var now := ultimaVez.GetOr(clock);
    match FindTema(t.rows, w)
    case Some(i) =>
      CountTripleBump(t.rows, w, t.rows[i].id, now);
    case None =>
      CountTripleSnoc(t.rows, Tema(t.nextId, medioId, nombre, url, primeraVez.GetOr(now), now), w);
  }

  /** Calling the upsert again with the same arguments changes nothing more. */
  lemma UpsertIdempotent(t: TemaTable, medioId: int, nombre: string, url: string,
                         primeraVez: Option<int>, ultimaVez: Option<int>, clock: int)
    requires TableValid(t)
    ensures var once := Upsert(t, medioId, nombre, url, primeraVez, ultimaVez, clock);
      Upsert(once, medioId, nombre, url, primeraVez, ultimaVez, clock) == once
  {
    var w := ByTriple(medioId, nombre, url);
    var now := ultimaVez.GetOr(clock);
    var once := Upsert(t, medioId, nombre, url, primeraVez, ultimaVez, clock);
    UpsertValid(t, medioId, nombre, url, primeraVez, ultimaVez, clock);
    match FindTema(t.rows, w)
    case Some(i) =>
      UpsertExisting(t, medioId, nombre, url, primeraVez, ultimaVez, clock, i);
      FindTemaAt(once.rows, w, i);
      BumpAgain(once.rows, i, now);
    case None =>
      var n := |t.rows|;
      UpsertNew(t, medioId, nombre, url, primeraVez, ultimaVez, clock);
      FindTemaAt(once.rows, w, n);
      BumpAgain(once.rows, n, now);
  }

  lemma FindTemaAt(rows: seq<Tema>, w: Where, i: nat)
    requires i < |rows| && Matches(rows[i], w)
    requires forall k :: 0 <= k < i ==> !Matches(rows[k], w)
    ensures FindTema(rows, w) == Some(i)
  {
  }

  /** Bumping a row to the time it already carries changes nothing. */
  lemma BumpAgain(rows: seq<Tema>, i: nat, now: int)
    requires i < |rows| && rows[i].ultimaVez == now
    requires forall a, b :: 0 <= a < b < |rows| ==> rows[a].id < rows[b].id
    ensures SetUltimaVez(rows, ById(rows[i].id), now) == rows
  {
    SetUltimaVezById(rows, i, now);
  }

  /** The upsert keeps the primary key of the topic table. */
  lemma UpsertValid(t: TemaTable, medioId: int, nombre: string, url: string,
                    primeraVez: Option<int>, ultimaVez: Option<int>, clock: int)
    requires TableValid(t)
    ensures TableValid(Upsert(t, medioId, nombre, url, primeraVez, ultimaVez, clock))
  {
  }

  /** `get_tema_stats`: the row count of `temas`. */
  datatype TemaStats = TemaStats(total: nat)

  function GetTemaStats(rows: seq<Tema>): TemaStats {
    TemaStats(|rows|)
  }

  /** The count grows by one exactly when the upsert meets a new triple. */
  lemma UpsertStats(t: TemaTable, medioId: int, nombre: string, url: string,
                    primeraVez: Option<int>, ultimaVez: Option<int>, clock: int)
    ensures var r := Upsert(t, medioId, nombre, url, primeraVez, ultimaVez, clock);
      GetTemaStats(r.rows).total
        == GetTemaStats(t.rows).total + (if CountTriple(t.rows, ByTriple(medioId, nombre, url)) == 0 then 1 else 0)
  {
  }

  // ---------------------------------------------------------------------
  // ORDER BY t.ultima_vez DESC

  predicate SortedDesc(s: seq<Joined>) {
    forall i, j :: 0 <= i < j < |s| ==> s[i].tema.ultimaVez >= s[j].tema.ultimaVez
  }

  /** Puts `x` before the first row not more recent than it. */
  function InsertDesc(x: Joined, s: seq<Joined>): (r: seq<Joined>)
    ensures |r| == |s| + 1
  {
    if |s| == 0 || s[0].tema.ultimaVez <= x.tema.ultimaVez then [x] + s
    else [s[0]] + InsertDesc(x, s[1..])
  }

  lemma {:induction false} InsertDescPerm(x: Joined, s: seq<Joined>)
    ensures multiset(InsertDesc(x, s)) == multiset(s) + multiset{x}
  {
    if !(|s| == 0 || s[0].tema.ultimaVez <= x.tema.ultimaVez) {
      InsertDescPerm(x, s[1..]);
      assert s == [s[0]] + s[1..];
    }
  }

  lemma {:induction false} InsertDescSorted(x: Joined, s: seq<Joined>)
    requires SortedDesc(s)
    ensures SortedDesc(InsertDesc(x, s))
  {
    if !(|s| == 0 || s[0].tema.ultimaVez <= x.tema.ultimaVez) {
      var rest := InsertDesc(x, s[1..]);
      InsertDescSorted(x, s[1..]);
      InsertDescPerm(x, s[1..]);
      forall k | 0 <= k < |rest|
        ensures rest[k].tema.ultimaVez <= s[0].tema.ultimaVez
      {
        assert rest[k] in multiset(s[1..]) + multiset{x};
        if rest[k] != x {
          var i :| 0 <= i < |s[1..]| && s[1..][i] == rest[k];
          assert s[i + 1] == rest[k];
        }
      }
      assert InsertDesc(x, s) == [s[0]] + rest;
    }
  }

  /** The rows ordered by `ultima_vez`, most recent first; equal times keep store order. */
  function SortDesc(s: seq<Joined>): (r: seq<Joined>)
    ensures |r| == |s|
  {
    if |s| == 0 then [] else InsertDesc(s[0], SortDesc(s[1..]))
  }

  lemma MultisetCons<T>(s: seq<T>)
    requires |s| > 0
    ensures multiset(s) == multiset(s[1..]) + multiset{s[0]}
  {
    assert s == [s[0]] + s[1..];
  }

  /** The ordering is a permutation of its input. */
  lemma {:induction false} SortDescPerm(s: seq<Joined>)
    ensures multiset(SortDesc(s)) == multiset(s)
  {
    if |s| > 0 {
      calc {
        multiset(SortDesc(s));
        multiset(InsertDesc(s[0], SortDesc(s[1..])));
        { InsertDescPerm(s[0], SortDesc(s[1..])); }
        multiset(SortDesc(s[1..])) + multiset{s[0]};
        { SortDescPerm(s[1..]); }
        multiset(s[1..]) + multiset{s[0]};
        { MultisetCons(s); }
        multiset(s);
      }
    }
  }

  /** The ordering runs from the most recently seen row to the least. */
  lemma {:induction false} SortDescSorted(s: seq<Joined>)
    ensures SortedDesc(SortDesc(s))
  {
    if |s| > 0 {
      SortDescSorted(s[1..]);
      InsertDescSorted(s[0], SortDesc(s[1..]));
    }
  }

  // ---------------------------------------------------------------------
  // get_temas (the second definition, which shadows the first)

  /** A joined row whose topic and site are stored and whose ids agree. */
  predicate FromTables(medios: seq<Medio>, temas: seq<Tema>, j: Joined) {
    j.tema in temas && j.medio in medios && j.medio.id == j.tema.medioId
  }

  /** A row of the `get_temas` answer; `duracion` is in seconds. */
  datatype TemaView = TemaView(id: int, nombre: string, url: string, primeraVez: int, ultimaVez: int,
                               medioNombre: string, medioUrl: string, medioTipo: string, medioId: int,
                               duracion: int, color: string)

  function ViewOf(j: Joined, now: int): TemaView {
    var e := now - j.tema.primeraVez;
    TemaView(j.tema.id, j.tema.nombre, j.tema.url, j.tema.primeraVez, j.tema.ultimaVez,
             j.medio.nombre, j.medio.url, j.medio.tipo, j.medio.id, e, Color(Classify(e)))
  }

  /**
   * The WHERE clause: `m.tipo = tipo` unless tipo is "todos", and `m.id =
   * medio_id` when medio_id is truthy (given and not 0).
   */
  predicate KeepRow(tipo: string, medioId: Option<int>, tipoOf: string, idOf: int) {
    && (tipo != "todos" ==> tipoOf == tipo)
    && (medioId.Some? && medioId.value != 0 ==> idOf == medioId.value)
  }

  function KeepOf(tipo: string, medioId: Option<int>): Joined -> Option<Joined> {
    (j: Joined) => if KeepRow(tipo, medioId, j.medio.tipo, j.medio.id) then Some(j) else None
  }

  /** The joined rows the WHERE clause keeps, in store order. */
  function Selected(medios: seq<Medio>, temas: seq<Tema>, tipo: string, medioId: Option<int>): seq<Joined> {
    FilterMap(KeepOf(tipo, medioId), JoinTemas(medios, temas))
  }

  /** `OFFSET offset LIMIT limit`. */
  function Window<T>(s: seq<T>, offset: nat, limit: nat): (r: seq<T>)
    ensures |r| == if offset >= |s| then 0 else if |s| - offset <= limit then |s| - offset else limit
    ensures forall k :: 0 <= k < |r| ==> r[k] == s[offset + k]
  {
    if offset >= |s| then []
    else if |s| - offset <= limit then s[offset..]
    else s[offset..offset + limit]
  }

  /** The answer rows for the matching joined rows: ordered, windowed, coloured. */
  function AnswerRows(sel: seq<Joined>, limit: nat, offset: nat, now: int): seq<TemaView> {
    var page := Window(SortDesc(sel), offset, limit);
    seq(|page|, k requires 0 <= k < |page| => ViewOf(page[k], now))
  }

  function GetTemas(medios: seq<Medio>, temas: seq<Tema>, tipo: string, medioId: Option<int>,
                    limit: nat, offset: nat, now: int): seq<TemaView>
  {
    AnswerRows(Selected(medios, temas, tipo, medioId), limit, offset, now)
  }

  /** Every row the WHERE clause keeps passes the filters and joins stored rows. */
  lemma SelectedSpec(medios: seq<Medio>, temas: seq<Tema>, tipo: string, medioId: Option<int>)
    ensures forall k :: 0 <= k < |Selected(medios, temas, tipo, medioId)| ==>
      var j := Selected(medios, temas, tipo, medioId)[k];
      FromTables(medios, temas, j) && KeepRow(tipo, medioId, j.medio.tipo, j.medio.id)
  {
    var P := (j: Joined) => FromTables(medios, temas, j);
    var Q := (j: Joined) => FromTables(medios, temas, j) && KeepRow(tipo, medioId, j.medio.tipo, j.medio.id);
    FilterMapPreserves(KeepOf(tipo, medioId), JoinTemas(medios, temas), P, Q);
  }

  /** Ordering and windowing keep what holds of every matching row, and order by recency. */
  lemma {:induction false} AnswerRowsSpec(sel: seq<Joined>, Q: Joined -> bool, limit: nat, offset: nat, now: int)
    requires forall i :: 0 <= i < |sel| ==> Q(sel[i])
    ensures var r := AnswerRows(sel, limit, offset, now);
      && |r| == (if offset >= |sel| then 0 else if |sel| - offset <= limit then |sel| - offset else limit)
      && (forall k :: 0 <= k < |r| ==> exists j :: Q(j) && r[k] == ViewOf(j, now))
      && (forall k, l :: 0 <= k < l < |r| ==> r[k].ultimaVez >= r[l].ultimaVez)
  {
    var sorted := SortDesc(sel);
    SortDescPerm(sel);
    SortDescSorted(sel);
    PermutationPreserves(sorted, sel, Q);
    var page := Window(sorted, offset, limit);
    var r := AnswerRows(sel, limit, offset, now);
    forall k | 0 <= k < |r|
      ensures exists j :: Q(j) && r[k] == ViewOf(j, now)
    {
      assert Q(page[k]) && r[k] == ViewOf(page[k], now);
    }
  }

  /**
   * What `get_temas` answers: at most `limit` rows, skipping `offset` of the
   * matching ones; each satisfies the filters, comes from a stored topic joined
   * with its site, is coloured by its age, and the rows run from the most
   * recently seen to the least.
   */
  lemma {:induction false} GetTemasSpec(medios: seq<Medio>, temas: seq<Tema>, tipo: string, medioId: Option<int>,
                                        limit: nat, offset: nat, now: int)
    ensures var r := GetTemas(medios, temas, tipo, medioId, limit, offset, now);
      var n := |Selected(medios, temas, tipo, medioId)|;
      && |r| <= limit
      && |r| == (if offset >= n then 0 else if n - offset <= limit then n - offset else limit)
      && (forall k :: 0 <= k < |r| ==> KeepRow(tipo, medioId, r[k].medioTipo, r[k].medioId))
      && (forall k :: 0 <= k < |r| ==>
            Tema(r[k].id, r[k].medioId, r[k].nombre, r[k].url, r[k].primeraVez, r[k].ultimaVez) in temas
            && Medio(r[k].medioId, r[k].medioNombre, r[k].medioUrl, r[k].medioTipo) in medios)
      && (forall k :: 0 <= k < |r| ==>
            r[k].duracion == now - r[k].primeraVez && r[k].color == Color(Classify(r[k].duracion)))
      && (forall k, l :: 0 <= k < l < |r| ==> r[k].ultimaVez >= r[l].ultimaVez)
  {
    var sel := Selected(medios, temas, tipo, medioId);
    SelectedSpec(medios, temas, tipo, medioId);
    var Q := (j: Joined) => FromTables(medios, temas, j) && KeepRow(tipo, medioId, j.medio.tipo, j.medio.id);
    AnswerRowsSpec(sel, Q, limit, offset, now);
  }

  /** Every joined row the filters accept is among the matching rows. */
  lemma {:induction false} SelectedComplete(medios: seq<Medio>, temas: seq<Tema>, tipo: string, medioId: Option<int>, j: Joined)
    requires j in JoinTemas(medios, temas) && KeepRow(tipo, medioId, j.medio.tipo, j.medio.id)
    ensures j in Selected(medios, temas, tipo, medioId)
  {
    var joined := JoinTemas(medios, temas);
    FilterMapPositions(KeepOf(tipo, medioId), joined);
    var i :| 0 <= i < |joined| && joined[i] == j;
    var p := KeptPositions(KeepOf(tipo, medioId), joined);
    assert i in p;
    var k :| 0 <= k < |p| && p[k] == i;
    assert Selected(medios, temas, tipo, medioId)[k] == j;
  }

  /** When all matching rows fit in the first page, each of them is answered. */
  lemma {:induction false} AnswerRowsComplete(sel: seq<Joined>, limit: nat, now: int, j: Joined)
    requires |sel| <= limit && j in sel
    ensures ViewOf(j, now) in AnswerRows(sel, limit, 0, now)
  {
    var sorted := SortDesc(sel);
    SortDescPerm(sel);
    assert j in multiset(sorted);
    var m :| 0 <= m < |sorted| && sorted[m] == j;
    assert AnswerRows(sel, limit, 0, now)[m] == ViewOf(j, now);
  }

  /**
   * Nothing matching is lost: from the first page, when every matching row
   * fits in it, each stored topic that joins a site and passes the filters is
   * answered.
   */
  lemma {:induction false} GetTemasComplete(medios: seq<Medio>, temas: seq<Tema>, tipo: string, medioId: Option<int>,
                                            limit: nat, now: int, t: Tema)
    requires |Selected(medios, temas, tipo, medioId)| <= limit
    requires t in temas && FindMedio(medios, t.medioId).Some?
    requires KeepRow(tipo, medioId, FindMedio(medios, t.medioId).value.tipo, t.medioId)
    ensures ViewOf(Joined(t, FindMedio(medios, t.medioId).value), now)
      in GetTemas(medios, temas, tipo, medioId, limit, 0, now)
  {
    var j := Joined(t, FindMedio(medios, t.medioId).value);
    JoinTemasComplete(medios, temas, t);
    SelectedComplete(medios, temas, tipo, medioId, j);
    AnswerRowsComplete(Selected(medios, temas, tipo, medioId), limit, now, j);
  }

  /** With tipo "todos" and no site id the WHERE clause keeps every joined row. */
  lemma GetTemasUnfiltered(medios: seq<Medio>, temas: seq<Tema>, medioId: Option<int>)
    requires medioId.None? || medioId.value == 0
    ensures Selected(medios, temas, "todos", medioId) == JoinTemas(medios, temas)
  {
    var joined := JoinTemas(medios, temas);
    FilterMapKeepsAll(KeepOf("todos", medioId), joined);
  }

  // ---------------------------------------------------------------------
  // get_temas_por_dominio

  /** A row of the `get_temas_por_dominio` answer. */
  datatype DomainView = DomainView(text: string, href: string, color: string, estado: string, duracion: int)

  /** The query as normalised: lower-cased, "www." removed. */
  function QueryKey(dominio: string): string {
    ReplaceAll(Lower(dominio), "www.", "")
  }

  /** The site's host name (empty when it has none), "www." removed, lower-cased. */
  function HostKey(medioUrl: string): string {
    Lower(ReplaceAll(Hostname(medioUrl), "www.", ""))
  }

  function DomainRow(q: string, now: int, j: Joined): Option<DomainView> {
    if !Contains(HostKey(j.medio.url), q) then None
    else
      var e := now - j.tema.primeraVez;
      Some(DomainView(j.tema.nombre, j.tema.url, Color(Classify(e)), Name(Classify(e)), e))
  }

  function DomainOf(q: string, now: int): Joined -> Option<DomainView> {
    j => DomainRow(q, now, j)
  }

  /** All joined rows, most recently seen first. */
  function ByRecency(medios: seq<Medio>, temas: seq<Tema>): seq<Joined> {
    SortDesc(JoinTemas(medios, temas))
  }

  /** `estado` and `color` of an answer row name the same freshness state. */
  function GetTemasPorDominio(medios: seq<Medio>, temas: seq<Tema>, dominio: string, now: int): (r: seq<DomainView>)
    ensures |r| <= |temas|
    ensures forall v :: v in r ==> v.color == Color(Classify(v.duracion)) && v.estado == Name(Classify(v.duracion))
  {
    var ordered := ByRecency(medios, temas);
    var q := QueryKey(dominio);
    DomainStatesAgree(ordered, q, now);
    FilterMap(DomainOf(q, now), ordered)
  }

  lemma DomainStatesAgree(ordered: seq<Joined>, q: string, now: int)
    ensures forall v :: v in FilterMap(DomainOf(q, now), ordered) ==>
      v.color == Color(Classify(v.duracion)) && v.estado == Name(Classify(v.duracion))
  {
    FilterMapPreserves(DomainOf(q, now), ordered, (j: Joined) => true,
      (v: DomainView) => v.color == Color(Classify(v.duracion)) && v.estado == Name(Classify(v.duracion)));
  }

  /**
   * A row is answered iff the normalised query is a substring of its site's
   * normalised host name; answered rows keep the recency order, and each
   * carries its topic's name and url and the time since it was first seen.
   */
  lemma {:induction false} DomainFilterSpec(ordered: seq<Joined>, q: string, now: int)
    ensures var r := FilterMap(DomainOf(q, now), ordered);
      var p := KeptPositions(DomainOf(q, now), ordered);
      && |p| == |r|
      && (forall i :: 0 <= i < |ordered| ==> (Contains(HostKey(ordered[i].medio.url), q) <==> i in p))
      && (forall k, l :: 0 <= k < l < |p| ==> p[k] < p[l])
      && (forall k :: 0 <= k < |p| ==>
            p[k] < |ordered|
            && r[k].text == ordered[p[k]].tema.nombre && r[k].href == ordered[p[k]].tema.url
            && r[k].duracion == now - ordered[p[k]].tema.primeraVez)
  {
    FilterMapPositions(DomainOf(q, now), ordered);
  }

  /**
   * A row is answered iff the normalised query is a substring of its site's
   * normalised host name; answered rows keep the recency order, and each
   * carries its topic's name and url and the time since it was first seen.
   */
  lemma {:induction false} GetTemasPorDominioSpec(medios: seq<Medio>, temas: seq<Tema>, dominio: string, now: int)
    ensures var ordered := ByRecency(medios, temas);
      var r := GetTemasPorDominio(medios, temas, dominio, now);
      var p := KeptPositions(DomainOf(QueryKey(dominio), now), ordered);
      && |p| == |r|
      && (forall i :: 0 <= i < |ordered| ==>
            (Contains(HostKey(ordered[i].medio.url), QueryKey(dominio)) <==> i in p))
      && (forall k, l :: 0 <= k < l < |p| ==> p[k] < p[l])
      && (forall k :: 0 <= k < |p| ==>
            p[k] < |ordered|
            && r[k].text == ordered[p[k]].tema.nombre && r[k].href == ordered[p[k]].tema.url
            && r[k].duracion == now - ordered[p[k]].tema.primeraVez)
  {
    DomainFilterSpec(ByRecency(medios, temas), QueryKey(dominio), now);
  }

  /** A query that normalises to nothing (such as "" or "www.") keeps every row. */
  lemma GetTemasPorDominioEmpty(medios: seq<Medio>, temas: seq<Tema>, dominio: string, now: int)
    requires QueryKey(dominio) == ""
    ensures |GetTemasPorDominio(medios, temas, dominio, now)| == |JoinTemas(medios, temas)|
  {
    var ordered := ByRecency(medios, temas);
    forall i | 0 <= i < |ordered|
      ensures DomainOf("", now)(ordered[i]).Some?
    {
      ContainsEmpty(HostKey(ordered[i].medio.url));
    }
    FilterMapKeepsAll(DomainOf("", now), ordered);
  }
}
