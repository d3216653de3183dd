/**
 * The abstract search-engine query the translator produces (what the source builds with
 * elasticsearch-dsl's `Q` and `Bool`), and a reference reading of what a query selects.
 */
module EsQuery {
  import opened Wrappers

  /** A number of the query document, as its text (the source only passes numbers through). */
  type Num = string

  /** A term value: a string, or a number. */
  datatype Scalar = Text(text: string) | Number(num: Num)

  datatype LatLon = LatLon(lat: Num, lon: Num)

  datatype Query =
    | MatchQuery(field: string, text: string, andOperator: bool)
    | TermQuery(field: string, value: Scalar)
    | RangeQuery(field: string, bounds: map<string, Num>)
    | ExistsQuery(field: string)
    | GeoDistanceQuery(field: string, distance: string, lat: Num, lon: Num)
    | GeoPolygonQuery(field: string, points: seq<LatLon>)
    | BoolQuery(filter: seq<Query>, should: seq<Query>, mustNot: seq<Query>,
                minimumShouldMatch: Option<nat>)

  /** The copy field holding every value of a record, used for free-text search. */
  const MetaAll: string := "meta.all"
  /** The field holding a record's location. */
  const MetaGeo: string := "meta.geo"

  /**
   * Whether a record matches `q`, given which leaf queries it matches. A bool query
   * needs every `filter` clause, no `must_not` clause, and at least
   * `minimum_should_match` of its `should` clauses (one by default when it has
   * nothing but `should` clauses).
   */
  predicate Eval(q: Query, leaf: Query -> bool)
  {
    match q
    case BoolQuery(filter, should, mustNot, msm) =>
      && (forall c :: c in filter ==> Eval(c, leaf))
      && (forall c :: c in mustNot ==> !Eval(c, leaf))
      && CountMatching(should, leaf) >= RequiredShould(filter, should, msm)
    case _ => leaf(q)
  }

  function CountMatching(qs: seq<Query>, leaf: Query -> bool): nat
  {
    if qs == [] then 0
    else (if Eval(qs[0], leaf) then 1 else 0) + CountMatching(qs[1..], leaf)
  }

  function RequiredShould(filter: seq<Query>, should: seq<Query>, msm: Option<nat>): nat
  {
    match msm
    case Some(k) => k
    case None => if filter == [] && should != [] then 1 else 0
  }

  /** At least one of `qs` matches exactly when the count of matching members is positive. */
  lemma {:induction false} CountMatchingPositive(qs: seq<Query>, leaf: Query -> bool)
    ensures CountMatching(qs, leaf) >= 1 <==> exists c :: c in qs && Eval(c, leaf)
  {
    if qs != [] {
      CountMatchingPositive(qs[1..], leaf);
      assert qs == [qs[0]] + qs[1..];
      if exists c :: c in qs && Eval(c, leaf) {
        var c :| c in qs && Eval(c, leaf);
        if c != qs[0] { assert c in qs[1..]; }
      }
    }
  }
}
