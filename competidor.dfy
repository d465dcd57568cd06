/**
 * models/competidor.py: the relation "site c is a competitor of parent site
 * p", its idempotent insert, the lookup of a parent's competitors, and the
 * lookup from the domain being browsed to the competitors of the own site
 * that domain belongs to.
 */
module CompetidorModel {
  import opened Wrappers
  import opened Text
  import opened Selection
  import opened Store

  /**
   * `add_competidor(medio_competidor_id, medio_padre_id)`: the first argument
   * is the competitor; inserting a pair already present changes nothing
   * (ON CONFLICT DO NOTHING).
   */
  method AddCompetidor(db: Database, competidorId: int, padreId: int)
    modifies db
    ensures db.competidores == old(db.competidores) + {Link(padreId, competidorId)}
    ensures Link(padreId, competidorId) in old(db.competidores) ==> db.competidores == old(db.competidores)
    ensures db.registry == old(db.registry) && db.temas == old(db.temas)
  {
    var l := Link(padreId, competidorId);
    if l !in db.competidores {
      db.competidores := db.competidores + {l};
    }
  }

  function CompetitorOf(links: set<Link>, padreId: int): Medio -> Option<Medio> {
    (m: Medio) => if Link(padreId, m.id) in links then Some(m) else None
  }

  /**
   * `get_competidores_por_medio_padre(p)`: exactly the sites linked as
   * competitors of `p`, in store order.
   */
  function GetCompetidoresPorMedioPadre(medios: seq<Medio>, links: set<Link>, padreId: int): (r: seq<Medio>)
    ensures |r| <= |medios|
    ensures forall m :: m in r <==> m in medios && Link(padreId, m.id) in links
  {
    var r := FilterMap(CompetitorOf(links, padreId), medios);
    FilterMapPositions(CompetitorOf(links, padreId), medios);
    assert forall m :: m in medios && Link(padreId, m.id) in links ==> m in r by {
      forall m | m in medios && Link(padreId, m.id) in links
        ensures m in r
      {
        var i :| 0 <= i < |medios| && medios[i] == m;
        var p := KeptPositions(CompetitorOf(links, padreId), medios);
        assert i in p;
        var k :| 0 <= k < |p| && p[k] == i;
        assert r[k] == m;
      }
    }
    r
  }

  /**
   * A site url reduced to its bare domain, as the SQL does: "https://",
   * "http://" and "www." removed, then every "/" deleted.
   */
  function DomainKey(url: string): string {
    ReplaceAll(ReplaceAll(ReplaceAll(ReplaceAll(url, "https://", ""), "http://", ""), "www.", ""), "/", "")
  }

  /** `tipo = 'propio' AND dominio ILIKE '%' || key || '%'`. */
  predicate OwnSiteFor(dominio: string, m: Medio) {
    m.tipo == "propio" && Contains(Lower(dominio), Lower(DomainKey(m.url)))
  }

  /** `fetchone()` on the own-site query: the first matching row in store order. */
  function FirstOwnMatch(medios: seq<Medio>, dominio: string): (r: Option<nat>)
    ensures r.Some? ==> r.value < |medios| && OwnSiteFor(dominio, medios[r.value])
    ensures r.Some? ==> forall k :: 0 <= k < r.value ==> !OwnSiteFor(dominio, medios[k])
    ensures r.None? ==> forall k :: 0 <= k < |medios| ==> !OwnSiteFor(dominio, medios[k])
  {
    if |medios| == 0 then None
    else if OwnSiteFor(dominio, medios[0]) then Some(0)
    else match FirstOwnMatch(medios[1..], dominio)
      case None => None
      case Some(i) => Some(i + 1)
  }

  /** A row of the answer: a competitor's name and url. */
  datatype Contacto = Contacto(nombre: string, url: string)

  function GetCompetidoresRelacionados(medios: seq<Medio>, links: set<Link>, dominio: string): seq<Contacto> {
    match FirstOwnMatch(medios, dominio)
    case None => []
    case Some(i) =>
      var cs := GetCompetidoresPorMedioPadre(medios, links, medios[i].id);
      seq(|cs|, k requires 0 <= k < |cs| => Contacto(cs[k].nombre, cs[k].url))
  }

  /** No own site matches the domain: the answer is empty. */
  lemma RelacionadosNoMatch(medios: seq<Medio>, links: set<Link>, dominio: string)
    requires forall k :: 0 <= k < |medios| ==> !OwnSiteFor(dominio, medios[k])
    ensures GetCompetidoresRelacionados(medios, links, dominio) == []
  {
  }

  /**
   * Only the first own site matching the domain is used: the answer lists the
   * name and url of exactly its competitors.
   */
  lemma RelacionadosFirstMatch(medios: seq<Medio>, links: set<Link>, dominio: string, i: nat)
    requires i < |medios| && OwnSiteFor(dominio, medios[i])
    requires forall k :: 0 <= k < i ==> !OwnSiteFor(dominio, medios[k])
    ensures forall c :: c in GetCompetidoresRelacionados(medios, links, dominio) <==>
      exists m :: m in medios && Link(medios[i].id, m.id) in links && c == Contacto(m.nombre, m.url)
  {
    assert FirstOwnMatch(medios, dominio) == Some(i);
    var cs := GetCompetidoresPorMedioPadre(medios, links, medios[i].id);
    var r := GetCompetidoresRelacionados(medios, links, dominio);
    forall c
      ensures c in r <==> exists m :: m in medios && Link(medios[i].id, m.id) in links && c == Contacto(m.nombre, m.url)
    {
      if c in r {
        var k :| 0 <= k < |r| && r[k] == c;
        assert cs[k] in cs;
      }
      if exists m :: m in medios && Link(medios[i].id, m.id) in links && c == Contacto(m.nombre, m.url) {
        var m :| m in medios && Link(medios[i].id, m.id) in links && c == Contacto(m.nombre, m.url);
        assert m in cs;
        var k :| 0 <= k < |cs| && cs[k] == m;
        assert r[k] == c;
      }
    }
  }
}
