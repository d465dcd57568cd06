/**
 * models/medio.py: the site registry — listing, the unique-name insert with
 * its 201/409 answers, and the per-type counts.
 */
module MedioModel {
  import opened Wrappers
  import opened Store

  const ADDED_MESSAGE: string := "Medio agregado correctamente"
  const EXISTS_MESSAGE: string := "El medio ya existe"

  /** The answer of `add_medio`. */
  datatype AddAnswer = Created(id: int, mensaje: string) | Conflict(error: string)

  function Status(a: AddAnswer): int {
    if a.Created? then 201 else 409
  }

  /** `get_all_medios`: every registry row, in store order. */
  function GetAllMedios(r: Registry): (ms: seq<Medio>)
    ensures |ms| == |r.rows|
    ensures forall k :: 0 <= k < |ms| ==> ms[k] == r.rows[k]
  {
    r.rows
  }

  /** Under UNIQUE(nombre) the listing never shows two sites with one name. */
  lemma GetAllMediosDistinctNames(r: Registry)
    requires RegistryValid(r)
    ensures forall i, j :: 0 <= i < |GetAllMedios(r)| && 0 <= j < |GetAllMedios(r)| && i != j ==>
      GetAllMedios(r)[i].nombre != GetAllMedios(r)[j].nombre
  {
    forall i, j | 0 <= i < |r.rows| && 0 <= j < |r.rows| && i != j
      ensures r.rows[i].nombre != r.rows[j].nombre
    {
      if i > j {
        assert r.rows[j].nombre != r.rows[i].nombre;
      }
    }
  }

  /**
   * `add_medio`: a fresh name is inserted and answered 201 with its id; a
   * registered name raises the integrity error, answered 409, and the registry
   * is unchanged.
   */
  method AddMedio(db: Database, nombre: string, url: string, tipo: string) returns (a: AddAnswer)
    requires db.Valid()
    modifies db
    ensures db.Valid()
    ensures a.Created? <==> !NameTaken(old(db.registry.rows), nombre)
    ensures a.Created? ==>
      && Status(a) == 201 && a.mensaje == ADDED_MESSAGE && a.id == old(db.registry.nextId)
      && GetAllMedios(db.registry) == GetAllMedios(old(db.registry)) + [Medio(a.id, nombre, url, tipo)]
    ensures a.Conflict? ==> Status(a) == 409 && a.error == EXISTS_MESSAGE && db.registry == old(db.registry)
    ensures db.registry == RegisterMedio(old(db.registry), MedioData(nombre, url, tipo)).0
    ensures db.temas == old(db.temas) && db.competidores == old(db.competidores)
  {
    var id := db.InsertMedio(MedioData(nombre, url, tipo));
    if id.Some? {
      a := Created(id.value, ADDED_MESSAGE);
    } else {
      a := Conflict(EXISTS_MESSAGE);
    }
  }

  /** The number of rows of a given type. */
  function CountTipo(rows: seq<Medio>, tipo: string): (n: nat)
    ensures n <= |rows|
  {
    if |rows| == 0 then 0
    else CountTipo(rows[..|rows| - 1], tipo) + (if rows[|rows| - 1].tipo == tipo then 1 else 0)
  }

  lemma CountTipoSnoc(rows: seq<Medio>, m: Medio, tipo: string)
    ensures CountTipo(rows + [m], tipo) == CountTipo(rows, tipo) + (if m.tipo == tipo then 1 else 0)
  {
    assert (rows + [m])[..|rows|] == rows;
  }

  /** `get_medio_stats`. */
  datatype MedioStats = MedioStats(total: nat, propios: nat, competencia: nat)

  function GetMedioStats(r: Registry): MedioStats {
    MedioStats(|r.rows|, CountTipo(r.rows, "propio"), CountTipo(r.rows, "competencia"))
  }

  /** Rows of two different types are disjoint, so their counts add up to at most the total. */
  lemma {:induction false} CountTwoTipos(rows: seq<Medio>, a: string, b: string)
    requires a != b
    ensures CountTipo(rows, a) + CountTipo(rows, b) <= |rows|
  {
    if |rows| > 0 {
      CountTwoTipos(rows[..|rows| - 1], a, b);
    }
  }

  /** Own and competitor sites together never exceed all sites. */
  lemma MedioStatsBound(r: Registry)
    ensures GetMedioStats(r).propios + GetMedioStats(r).competencia <= GetMedioStats(r).total
  {
    CountTwoTipos(r.rows, "propio", "competencia");
  }

  /** A successful insert raises the total and the count of its own type by one, and no other count. */
  lemma MedioStatsAfterInsert(r: Registry, d: MedioData)
    requires RegisterMedio(r, d).1.Some?
    ensures var before := GetMedioStats(r);
      var after := GetMedioStats(RegisterMedio(r, d).0);
      && after.total == before.total + 1
      && after.propios == before.propios + (if d.tipo == "propio" then 1 else 0)
      && after.competencia == before.competencia + (if d.tipo == "competencia" then 1 else 0)
  {
    var m := Medio(r.nextId, d.nombre, d.url, d.tipo);
    CountTipoSnoc(r.rows, m, "propio");
    CountTipoSnoc(r.rows, m, "competencia");
  }
}
