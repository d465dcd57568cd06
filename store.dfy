/**
 * The relational store shared by both iterations of the program: the tables
 * `medios`, `temas` and `competidores` as sequences (and a set) of records,
 * the constraints the schema enforces (primary keys, UNIQUE(nombre), one link
 * per ordered pair), the row-level operations SQL statements perform on them,
 * and the `temas JOIN medios` that every read path uses.
 */
module Store {
  import opened Wrappers
  import opened Selection

  /** A row of `medios`: a monitored site; `tipo` is "propio" or "competencia". */
  datatype Medio = Medio(id: int, nombre: string, url: string, tipo: string)

  /** The values an insert into `medios` supplies. */
  datatype MedioData = MedioData(nombre: string, url: string, tipo: string)

  /** A row of `temas`; timestamps are seconds on one clock. */
  datatype Tema = Tema(id: int, medioId: int, nombre: string, url: string, primeraVez: int, ultimaVez: int)

  /** A row of `competidores`: site `competidorId` is tracked as a competitor of site `padreId`. */
  datatype Link = Link(padreId: int, competidorId: int)

  /** The `medios` table with the id its next insert receives. */
  datatype Registry = Registry(rows: seq<Medio>, nextId: int)

  /** The `temas` table with the id its next insert receives. */
  datatype TemaTable = TemaTable(rows: seq<Tema>, nextId: int)

  /** Primary key and UNIQUE(nombre) of `medios`; ids come from an increasing counter. */
  predicate RegistryValid(r: Registry) {
    && (forall i, j :: 0 <= i < j < |r.rows| ==> r.rows[i].id < r.rows[j].id)
    && (forall i, j :: 0 <= i < j < |r.rows| ==> r.rows[i].nombre != r.rows[j].nombre)
    && (forall i :: 0 <= i < |r.rows| ==> r.rows[i].id < r.nextId)
  }

  /** Primary key of `temas`; ids come from an increasing counter. */
  predicate TableValid(t: TemaTable) {
    && (forall i, j :: 0 <= i < j < |t.rows| ==> t.rows[i].id < t.rows[j].id)
    && (forall i :: 0 <= i < |t.rows| ==> t.rows[i].id < t.nextId)
  }

  predicate NameTaken(rows: seq<Medio>, nombre: string) {
    exists i :: 0 <= i < |rows| && rows[i].nombre == nombre
  }

  /**
   * `INSERT INTO medios (nombre, url, tipo)` under UNIQUE(nombre): the new row
   * and its id, or an IntegrityError (None) with the table unchanged when the
   * name is already registered. The insert keeps the constraints.
   */
  function RegisterMedio(r: Registry, d: MedioData): (res: (Registry, Option<int>))
    ensures res.1.Some? <==> !NameTaken(r.rows, d.nombre)
    ensures res.1.None? ==> res.0 == r
    ensures res.1.Some? ==>
      && res.1.value == r.nextId && res.0.nextId == r.nextId + 1
      && res.0.rows == r.rows + [Medio(r.nextId, d.nombre, d.url, d.tipo)]
    ensures RegistryValid(r) ==> RegistryValid(res.0)
  {
    if NameTaken(r.rows, d.nombre) then (r, None)
    else (Registry(r.rows + [Medio(r.nextId, d.nombre, d.url, d.tipo)], r.nextId + 1), Some(r.nextId))
  }

  /** One insert per entry, in order, each skipped on IntegrityError. */
  function RegisterAll(r: Registry, ds: seq<MedioData>): (res: Registry)
    ensures |r.rows| <= |res.rows| <= |r.rows| + |ds|
    ensures res.rows[..|r.rows|] == r.rows
    ensures RegistryValid(r) ==> RegistryValid(res)
  {
    if |ds| == 0 then r else RegisterMedio(RegisterAll(r, ds[..|ds| - 1]), ds[|ds| - 1]).0
  }

  /**
   * Entries whose names are pairwise distinct and not yet registered are all
   * inserted, in order, with consecutive ids.
   */
  lemma {:induction false} RegisterAllFresh(r: Registry, ds: seq<MedioData>)
    requires forall i, j :: 0 <= i < j < |ds| ==> ds[i].nombre != ds[j].nombre
    requires forall i :: 0 <= i < |ds| ==> !NameTaken(r.rows, ds[i].nombre)
    ensures |RegisterAll(r, ds).rows| == |r.rows| + |ds|
    ensures RegisterAll(r, ds).nextId == r.nextId + |ds|
    ensures forall i :: 0 <= i < |ds| ==>
      RegisterAll(r, ds).rows[|r.rows| + i] == Medio(r.nextId + i, ds[i].nombre, ds[i].url, ds[i].tipo)
  {
    if |ds| > 0 {
      var n := |ds| - 1;
      var init := ds[..n];
      var mid := RegisterAll(r, init);
      assert |mid.rows| == |r.rows| + n && mid.nextId == r.nextId + n
        && (forall i :: 0 <= i < n ==> mid.rows[|r.rows| + i] == Medio(r.nextId + i, ds[i].nombre, ds[i].url, ds[i].tipo))
      by {
        assert forall i :: 0 <= i < n ==> init[i] == ds[i];
        RegisterAllFresh(r, init);
      }
      assert !NameTaken(mid.rows, ds[n].nombre) by {
        assert forall i :: 0 <= i < n ==> init[i] == ds[i];
        StillFree(r, init, mid, ds[n].nombre);
      }
      assert RegisterAll(r, ds) == RegisterMedio(mid, ds[n]).0;
      FreshStep(r, ds, mid, RegisterAll(r, ds));
    }
  }

  /** A name neither registered nor among the entries inserted since is still free. */
  lemma StillFree(r: Registry, init: seq<MedioData>, mid: Registry, nombre: string)
    requires !NameTaken(r.rows, nombre)
    requires forall i :: 0 <= i < |init| ==> init[i].nombre != nombre
    requires |mid.rows| == |r.rows| + |init| && mid.rows[..|r.rows|] == r.rows
    requires forall i :: 0 <= i < |init| ==> mid.rows[|r.rows| + i].nombre == init[i].nombre
    ensures !NameTaken(mid.rows, nombre)
  {
    forall k | 0 <= k < |mid.rows|
      ensures mid.rows[k].nombre != nombre
    {
      if k < |r.rows| {
        assert mid.rows[k] == r.rows[k];
      } else {
        assert mid.rows[k].nombre == init[k - |r.rows|].nombre;
      }
    }
  }

  /** The last fresh entry is appended after the others with the next id. */
  lemma FreshStep(r: Registry, ds: seq<MedioData>, mid: Registry, res: Registry)
    requires |ds| > 0
    requires |mid.rows| == |r.rows| + |ds| - 1 && mid.nextId == r.nextId + |ds| - 1
    requires forall i :: 0 <= i < |ds| - 1 ==>
      mid.rows[|r.rows| + i] == Medio(r.nextId + i, ds[i].nombre, ds[i].url, ds[i].tipo)
    requires !NameTaken(mid.rows, ds[|ds| - 1].nombre)
    requires res == RegisterMedio(mid, ds[|ds| - 1]).0
    ensures |res.rows| == |r.rows| + |ds| && res.nextId == r.nextId + |ds|
    ensures forall i :: 0 <= i < |ds| ==>
      res.rows[|r.rows| + i] == Medio(r.nextId + i, ds[i].nombre, ds[i].url, ds[i].tipo)
  {
    var last := ds[|ds| - 1];
    assert res.rows == mid.rows + [Medio(mid.nextId, last.nombre, last.url, last.tipo)];
  }

  /** Which rows an `UPDATE temas SET ultima_vez = ...` statement touches. */
  datatype Where = ById(id: int) | ByTriple(medioId: int, nombre: string, url: string)

  predicate Matches(t: Tema, w: Where) {
    match w
    case ById(id) => t.id == id
    case ByTriple(m, n, u) => t.medioId == m && t.nombre == n && t.url == u
  }

  /** `UPDATE temas SET ultima_vez = now WHERE ...`: every matching row, and only those. */
  function SetUltimaVez(rows: seq<Tema>, w: Where, now: int): (r: seq<Tema>)
    ensures |r| == |rows|
    ensures forall i :: 0 <= i < |rows| ==>
      r[i] == if Matches(rows[i], w) then rows[i].(ultimaVez := now) else rows[i]
  {
    seq(|rows|, i requires 0 <= i < |rows| =>
      if Matches(rows[i], w) then rows[i].(ultimaVez := now) else rows[i])
  }

  /** `INSERT INTO temas (medio_id, nombre, url, primera_vez, ultima_vez)`. */
  function InsertTema(t: TemaTable, medioId: int, nombre: string, url: string, primeraVez: int, ultimaVez: int): (r: TemaTable)
    ensures r.rows == t.rows + [Tema(t.nextId, medioId, nombre, url, primeraVez, ultimaVez)]
    ensures r.nextId == t.nextId + 1
    ensures TableValid(t) ==> TableValid(r)
  {
    TemaTable(t.rows + [Tema(t.nextId, medioId, nombre, url, primeraVez, ultimaVez)], t.nextId + 1)
  }

  /** A topic row together with the site row it joins. */
  datatype Joined = Joined(tema: Tema, medio: Medio)

  /** The site row with the given id; ids are a primary key, so there is at most one. */
  function FindMedio(medios: seq<Medio>, id: int): (r: Option<Medio>)
    ensures r.Some? ==> r.value in medios && r.value.id == id
    ensures r.None? ==> forall i :: 0 <= i < |medios| ==> medios[i].id != id
  {
    if |medios| == 0 then None
    else if medios[0].id == id then Some(medios[0])
    else FindMedio(medios[1..], id)
  }

  function JoinRow(medios: seq<Medio>, t: Tema): Option<Joined> {
    match FindMedio(medios, t.medioId)
    case None => None
    case Some(m) => Some(Joined(t, m))
  }

  function JoinOf(medios: seq<Medio>): Tema -> Option<Joined> {
    t => JoinRow(medios, t)
  }

  /**
   * `FROM temas t JOIN medios m ON t.medio_id = m.id`, in the store order of
   * `temas`: a topic row appears iff its site exists, joined with that site.
   */
  function JoinTemas(medios: seq<Medio>, temas: seq<Tema>): (r: seq<Joined>)
    ensures |r| <= |temas|
    ensures forall k :: 0 <= k < |r| ==>
      r[k].tema in temas && r[k].medio in medios && r[k].medio.id == r[k].tema.medioId
  {
    var r := FilterMap(JoinOf(medios), temas);
    FilterMapPositions(JoinOf(medios), temas);
    r
  }

  /** Every topic row whose site exists is joined with the site its id finds. */
  lemma JoinTemasComplete(medios: seq<Medio>, temas: seq<Tema>, t: Tema)
    requires t in temas && FindMedio(medios, t.medioId).Some?
    ensures Joined(t, FindMedio(medios, t.medioId).value) in JoinTemas(medios, temas)
  {
    FilterMapPositions(JoinOf(medios), temas);
    var i :| 0 <= i < |temas| && temas[i] == t;
    var p := KeptPositions(JoinOf(medios), temas);
    assert i in p;
    var k :| 0 <= k < |p| && p[k] == i;
    assert FilterMap(JoinOf(medios), temas)[k] == Joined(t, FindMedio(medios, t.medioId).value);
  }

  /** The connection to the database: its three tables. */
  class Database {
    var registry: Registry
    var temas: TemaTable
    var competidores: set<Link>

    ghost predicate Valid()
      reads this
    {
      RegistryValid(registry) && TableValid(temas)
    }

    /** An empty database, as `init_db` creates it. */
    constructor ()
      ensures Valid()
      ensures registry == Registry([], 1) && temas == TemaTable([], 1) && competidores == {}
    {
      registry := Registry([], 1);
      temas := TemaTable([], 1);
      competidores := {};
    }

    /**
     * `INSERT INTO medios (nombre, url, tipo) VALUES (...)`: the new id, or None
     * for the IntegrityError a registered name raises.
     */
    method InsertMedio(d: MedioData) returns (id: Option<int>)
      requires Valid()
      modifies this
      ensures Valid()
      ensures (registry, id) == RegisterMedio(old(registry), d)
      ensures temas == old(temas) && competidores == old(competidores)
    {
      if NameTaken(registry.rows, d.nombre) {
        id := None;
      } else {
        id := Some(registry.nextId);
        registry := Registry(registry.rows + [Medio(registry.nextId, d.nombre, d.url, d.tipo)], registry.nextId + 1);
      }
    }
  }
}
