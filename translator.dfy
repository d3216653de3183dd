/**
 * The v1.0.0 translator (`v1_0_0Schema` in lib/query/v1_0_0.py): a filter tree becomes a
 * tree of search-engine queries. Groups become bool queries, terms become leaf queries on
 * `data.`-prefixed fields, geographic terms become geo_polygon queries combined to give
 * polygons with holes.
 */
module Translator {
  import opened Wrappers
  import opened EsQuery
  import opened QueryDsl
  import opened Strings
  import Search

  /** The named regions: category (`country`, `marine`, `geography`) to name to MultiPolygon. */
  type Regions = map<string, map<string, seq<Polygon>>>

  /** The only failure of a translation: a `geo_named_area` category with no region table. */
  datatype TranslateError = UnknownCategory(category: string)

  // ---------------------------------------------------------------------------
  // The or-collapse and the geometry builders

  /** `build_or`: a single term on its own, otherwise a bool query needing one of them. */
  function BuildOr(terms: seq<Query>): (q: Query)
    ensures |terms| == 1 ==> q == terms[0]
    ensures |terms| != 1 ==> q == BoolQuery([], terms, [], Some(1))
  {
    if |terms| == 1 then terms[0] else BoolQuery([], terms, [], Some(1))
  }

  /** Whatever the number of terms, `build_or` matches a record exactly when one of them does. */
  lemma BuildOrMeaning(terms: seq<Query>, leaf: Query -> bool)
    ensures Eval(BuildOr(terms), leaf) <==> exists c :: c in terms && Eval(c, leaf)
  {
    if |terms| == 1 {
      assert terms[0] in terms;
    } else {
      CountMatchingPositive(terms, leaf);
    }
  }

  /** One point of a geo_polygon query; the GeoJSON `[lon, lat]` pair is read in that order. */
  function PointLatLon(p: Position): (ll: LatLon)
    ensures ll.lat == p.lat && ll.lon == p.lon
  {
    LatLon(p.lat, p.lon)
  }

  /** `build_geo_polygon_query`: one geo_polygon query on `meta.geo` over the ring's points, in order. */
  function GeoPolygon(ring: Ring): (q: Query)
    ensures q.GeoPolygonQuery? && q.field == MetaGeo && |q.points| == |ring|
    ensures forall i :: 0 <= i < |ring| ==> q.points[i] == LatLon(ring[i].lat, ring[i].lon)
  {
    GeoPolygonQuery(MetaGeo, MapSeq(PointLatLon, ring))
  }

  /** The query for one polygon: its exterior, or its exterior without its holes. */
  function PolygonQuery(p: Polygon): (q: Query)
    ensures p.holes == [] ==> q == GeoPolygon(p.outer)
    ensures p.holes != [] ==>
      && q.BoolQuery? && q.filter == [GeoPolygon(p.outer)] && q.should == []
      && q.minimumShouldMatch.None? && |q.mustNot| == |p.holes|
      && (forall i :: 0 <= i < |p.holes| ==> q.mustNot[i] == GeoPolygon(p.holes[i]))
  {
    if p.holes == [] then GeoPolygon(p.outer)
    else BoolQuery([GeoPolygon(p.outer)], [], MapSeq(GeoPolygon, p.holes), None)
  }

  /** A record lies in a polygon when it lies in the exterior ring and in none of the holes. */
  predicate InPolygon(p: Polygon, leaf: Query -> bool)
  {
    leaf(GeoPolygon(p.outer)) && forall h :: h in p.holes ==> !leaf(GeoPolygon(h))
  }

  /** A record lies in a MultiPolygon when it lies in one of its polygons (RFC 7946 section 3.1.7). */
  predicate InMultiPolygon(ps: seq<Polygon>, leaf: Query -> bool)
  {
    exists p :: p in ps && InPolygon(p, leaf)
  }

  /** The query for a MultiPolygon: one polygon query per polygon, in order, or-collapsed. */
  function MultipolygonQuery(coordinates: seq<Polygon>): Query
  {
    BuildOr(MapSeq(PolygonQuery, coordinates))
  }

  lemma PolygonQueryMeaning(p: Polygon, leaf: Query -> bool)
    ensures Eval(PolygonQuery(p), leaf) <==> InPolygon(p, leaf)
  {
    if p.holes != [] {
      var q := PolygonQuery(p);
      assert GeoPolygon(p.outer) in q.filter;
      if forall c :: c in q.mustNot ==> !Eval(c, leaf) {
        forall h | h in p.holes ensures !leaf(GeoPolygon(h)) {
          var i :| 0 <= i < |p.holes| && p.holes[i] == h;
          assert q.mustNot[i] == GeoPolygon(h) && q.mustNot[i] in q.mustNot;
        }
      }
    }
  }

  /** The MultiPolygon query selects exactly the records lying in one of the polygons. */
  lemma MultipolygonQueryMeaning(coordinates: seq<Polygon>, leaf: Query -> bool)
    ensures Eval(MultipolygonQuery(coordinates), leaf) <==> InMultiPolygon(coordinates, leaf)
  {
    var qs := MapSeq(PolygonQuery, coordinates);
    BuildOrMeaning(qs, leaf);
    if exists c :: c in qs && Eval(c, leaf) {
      var c :| c in qs && Eval(c, leaf);
      var i :| 0 <= i < |qs| && qs[i] == c;
      PolygonQueryMeaning(coordinates[i], leaf);
      assert coordinates[i] in coordinates;
    }
    if InMultiPolygon(coordinates, leaf) {
      var p :| p in coordinates && InPolygon(p, leaf);
      var i :| 0 <= i < |coordinates| && coordinates[i] == p;
      PolygonQueryMeaning(p, leaf);
      assert qs[i] in qs;
    }
  }

  /** `build_multipolygon_query`: the loop appending one query per polygon, then the or-collapse. */
  method BuildMultipolygonQuery(coordinates: seq<Polygon>) returns (q: Query)
    ensures q == MultipolygonQuery(coordinates)
  {
    var queries: seq<Query> := [];
    var i := 0;
    while i < |coordinates|
      invariant 0 <= i <= |coordinates|
      invariant queries == MapSeq(PolygonQuery, coordinates[..i])
    {
      var polygon := coordinates[i];
      var outer, holes := polygon.outer, polygon.holes;
      var outerQuery := GeoPolygon(outer);
      if holes != [] {
        var holesQueries := MapSeq(GeoPolygon, holes);
        queries := queries + [BoolQuery([outerQuery], [], holesQueries, None)];
      } else {
        queries := queries + [outerQuery];
      }
      i := i + 1;
    }
    assert coordinates[..i] == coordinates;
    q := BuildOr(queries);
  }

  // ---------------------------------------------------------------------------
  // Terms

  /** The numeric subfield a number term searches. */
  function NumberField(field: string): (r: string)
    ensures r == Search.PrefixField(field) + ".number"
  {
    Search.PrefixField(field) + ".number"
  }

  /** The full-text subfield a `string_contains` term searches. */
  function FullField(field: string): (r: string)
    ensures r == Search.PrefixField(field) + ".full"
  {
    Search.PrefixField(field) + ".full"
  }

  /**
   * The bounds of a `number_range` term: `lte` (or `lt` when `less_than_inclusive` is
   * false; it defaults to true) for an upper bound and `gte`/`gt` likewise for a lower
   * bound, each only when its bound is given.
   */
  function RangeBounds(lessThan: Option<Num>, lessThanInclusive: Option<bool>,
                       greaterThan: Option<Num>, greaterThanInclusive: Option<bool>): (b: map<string, Num>)
    ensures b.Keys <= {"lt", "lte", "gt", "gte"}
    ensures "lte" in b <==> lessThan.Some? && lessThanInclusive.GetOr(true)
    ensures "lt" in b <==> lessThan.Some? && !lessThanInclusive.GetOr(true)
    ensures "gte" in b <==> greaterThan.Some? && greaterThanInclusive.GetOr(true)
    ensures "gt" in b <==> greaterThan.Some? && !greaterThanInclusive.GetOr(true)
    ensures forall k :: k in b && k in {"lt", "lte"} ==> b[k] == lessThan.value
    ensures forall k :: k in b && k in {"gt", "gte"} ==> b[k] == greaterThan.value
  {
    var upper: map<string, Num> :=
      if lessThan.None? then map[]
      else map[(if lessThanInclusive.GetOr(true) then "lte" else "lt") := lessThan.value];
    if greaterThan.None? then upper
    else upper[(if greaterThanInclusive.GetOr(true) then "gte" else "gt") := greaterThan.value]
  }

  /** `create_number_range`'s filling of its `query` dict, bound by bound. */
  method CreateRangeBounds(lessThan: Option<Num>, lessThanInclusive: Option<bool>,
                           greaterThan: Option<Num>, greaterThanInclusive: Option<bool>)
    returns (query: map<string, Num>)
    ensures query == RangeBounds(lessThan, lessThanInclusive, greaterThan, greaterThanInclusive)
  {
    var lessInclusive := lessThanInclusive.GetOr(true);
    var greaterInclusive := greaterThanInclusive.GetOr(true);
    query := map[];
    if lessThan.Some? {
      query := query[(if !lessInclusive then "lt" else "lte") := lessThan.value];
    }
    if greaterThan.Some? {
      query := query[(if !greaterInclusive then "gt" else "gte") := greaterThan.value];
    }
  }

  /** The `geo_distance` distance: the radius (default 0) followed by its unit (default metres). */
  function Distance(radius: Option<Num>, radiusUnit: Option<string>): (d: string)
    ensures radius.None? && radiusUnit.None? ==> d == "0m"
    ensures radius.Some? && radiusUnit.Some? ==> d == radius.value + radiusUnit.value
    ensures radius.Some? && radiusUnit.None? ==> d == radius.value + "m"
    ensures radius.None? && radiusUnit.Some? ==> d == "0" + radiusUnit.value
  {
    radius.GetOr("0") + radiusUnit.GetOr("m")
  }

  /** A name missing from a region table reads as an empty MultiPolygon (the table is a defaultdict). */
  function NamedPolygons(table: map<string, seq<Polygon>>, name: string): (ps: seq<Polygon>)
    ensures name !in table ==> ps == []
    ensures name in table ==> ps == table[name]
  {
    if name in table then table[name] else []
  }

  // ---------------------------------------------------------------------------
  // The translation

  /** `create_group_or_term` and the `create_*` method its operator selects. */
  function Translate(f: Filter, regions: Regions): Result<Query, TranslateError>
    decreases f
  {
    match f
    case And(ms) =>
      var qs :- TranslateMembers(ms, regions);
      Ok(if |qs| == 1 then qs[0] else BoolQuery(qs, [], [], None))
    case Or(ms) =>
      var qs :- TranslateMembers(ms, regions);
      Ok(BuildOr(qs))
    case Not(ms) =>
      var qs :- TranslateMembers(ms, regions);
      Ok(BoolQuery([], [], qs, None))
    case StringEquals(fields, value) =>
      Ok(BuildOr(MapSeq((fd: string) => TermQuery(Search.PrefixField(fd), Text(value)), fields)))
    case StringContains(fields, value) =>
      if fields != [] then Ok(BuildOr(MapSeq((fd: string) => MatchQuery(FullField(fd), value, true), fields)))
      else Ok(MatchQuery(MetaAll, value, true))
    case NumberEquals(fields, number) =>
      Ok(BuildOr(MapSeq((fd: string) => TermQuery(NumberField(fd), Number(number)), fields)))
    case NumberRange(fields, lt, lti, gt, gti) =>
      var bounds := RangeBounds(lt, lti, gt, gti);
      Ok(BuildOr(MapSeq((fd: string) => RangeQuery(NumberField(fd), bounds), fields)))
    case Exists(fields, geoField) =>
      if geoField.GetOr(false) then Ok(ExistsQuery(MetaGeo))
      else Ok(BuildOr(MapSeq((fd: string) => ExistsQuery(Search.PrefixField(fd)), fields)))
    case GeoPoint(lat, lon, radius, unit) =>
      Ok(GeoDistanceQuery(MetaGeo, Distance(radius, unit), lat, lon))
    case GeoNamedArea(category, name) =>
      if category in regions then Ok(MultipolygonQuery(NamedPolygons(regions[category], name)))
      else Err(UnknownCategory(category))
    case GeoCustomArea(coordinates) =>
      Ok(MultipolygonQuery(coordinates))
  }

  /**
   * The list comprehension over a group's members, in member order; the first member
   * whose translation fails makes the whole list fail.
   */
  function TranslateMembers(ms: seq<Filter>, regions: Regions): (r: Result<seq<Query>, TranslateError>)
    ensures r.Ok? <==> forall i :: 0 <= i < |ms| ==> Translate(ms[i], regions).Ok?
    ensures r.Ok? ==> |r.value| == |ms|
    ensures r.Ok? ==> forall i :: 0 <= i < |ms| ==> Translate(ms[i], regions) == Ok(r.value[i])
    ensures r.Err? ==> exists i :: 0 <= i < |ms| && Translate(ms[i], regions) == Err(r.error)
    decreases ms
  {
    if ms == [] then Ok([])
    else
      var q :- Translate(ms[0], regions);
      var rest :- TranslateMembers(ms[1..], regions);
      Ok([q] + rest)
  }

  /**
   * The group rules: a one-member `and` or `or` is its member's query, a larger or empty one
   * is `Bool(filter=members)` or `Bool(should=members, minimum_should_match=1)`; a `not`
   * is always `Bool(must_not=members)`, even for one member. A group fails when a member does.
   */
  lemma GroupShapes(ms: seq<Filter>, regions: Regions)
    ensures TranslateMembers(ms, regions).Err? ==>
      Translate(And(ms), regions).Err? && Translate(Or(ms), regions).Err? && Translate(Not(ms), regions).Err?
    ensures TranslateMembers(ms, regions).Ok? ==>
      var qs := TranslateMembers(ms, regions).value;
      && Translate(And(ms), regions) == Ok(if |ms| == 1 then qs[0] else BoolQuery(qs, [], [], None))
      && Translate(Or(ms), regions) == Ok(if |ms| == 1 then qs[0] else BoolQuery([], qs, [], Some(1)))
      && Translate(Not(ms), regions) == Ok(BoolQuery([], [], qs, None))
  {
  }

  /** A group of one member translates to exactly what the member does (except `not`). */
  lemma SingleMemberUnwrapped(m: Filter, regions: Regions)
    ensures Translate(And([m]), regions) == Translate(m, regions)
    ensures Translate(Or([m]), regions) == Translate(m, regions)
    ensures Translate(m, regions).Ok? ==>
      Translate(Not([m]), regions) == Ok(BoolQuery([], [], [Translate(m, regions).value], None))
  {
    GroupShapes([m], regions);
    if Translate(m, regions).Ok? {
      var qs := TranslateMembers([m], regions).value;
      assert Translate([m][0], regions) == Ok(qs[0]);
      assert qs == [qs[0]];
    }
  }

  /**
   * The string leaf rules: a term on one field is that field's leaf query, unwrapped;
   * `string_contains` without fields is one `match` on `meta.all`.
   */
  lemma TermShapes(fd: string, value: string, regions: Regions)
    ensures Translate(StringEquals([fd], value), regions) == Ok(TermQuery("data." + fd, Text(value)))
    ensures Translate(StringContains([fd], value), regions) == Ok(MatchQuery("data." + fd + ".full", value, true))
    ensures Translate(StringContains([], value), regions) == Ok(MatchQuery("meta.all", value, true))
  {
  }

  /** The number leaf rules: `number_equals` and `number_range` on one field address its `.number` subfield. */
  lemma NumberTermShapes(fd: string, n: Num, regions: Regions,
                         lt: Option<Num>, lti: Option<bool>, gt: Option<Num>, gti: Option<bool>)
    ensures Translate(NumberEquals([fd], n), regions) == Ok(TermQuery("data." + fd + ".number", Number(n)))
    ensures Translate(NumberRange([fd], lt, lti, gt, gti), regions) ==
      Ok(RangeQuery("data." + fd + ".number", RangeBounds(lt, lti, gt, gti)))
  {
  }

  /** The `exists` rules: one field's `exists` query, or `exists meta.geo` with `geo_field` whatever the fields. */
  lemma ExistsTermShapes(fd: string, fields: seq<string>, regions: Regions)
    ensures Translate(Exists([fd], Some(false)), regions) == Ok(ExistsQuery("data." + fd))
    ensures Translate(Exists(fields, Some(true)), regions) == Ok(ExistsQuery("meta.geo"))
  {
  }

  // ---------------------------------------------------------------------------
  // What a filter means

  /** Whether `fs` (and only it) makes a translation fail: some named area's category is unknown. */
  predicate CategoriesKnown(f: Filter, regions: Regions)
  {
    match f
    case And(ms) => forall m :: m in ms ==> CategoriesKnown(m, regions)
    case Or(ms) => forall m :: m in ms ==> CategoriesKnown(m, regions)
    case Not(ms) => forall m :: m in ms ==> CategoriesKnown(m, regions)
    case GeoNamedArea(category, _) => category in regions
    case _ => true
  }

  /** A translation fails exactly when the filter names a region category that does not exist. */
  lemma {:induction false} TranslateFailsExactly(f: Filter, regions: Regions)
    ensures Translate(f, regions).Ok? <==> CategoriesKnown(f, regions)
    decreases f
  {
    match f
    case And(ms) => MembersFailExactly(ms, regions);
    case Or(ms) => MembersFailExactly(ms, regions);
    case Not(ms) => MembersFailExactly(ms, regions);
    case _ =>
  }

  lemma {:induction false} MembersFailExactly(ms: seq<Filter>, regions: Regions)
    ensures TranslateMembers(ms, regions).Ok? <==> forall m :: m in ms ==> CategoriesKnown(m, regions)
    decreases ms
  {
    forall i | 0 <= i < |ms|
      ensures Translate(ms[i], regions).Ok? <==> CategoriesKnown(ms[i], regions)
    {
      TranslateFailsExactly(ms[i], regions);
    }
    if forall m :: m in ms ==> CategoriesKnown(m, regions) {
      forall i | 0 <= i < |ms| ensures CategoriesKnown(ms[i], regions) {
        assert ms[i] in ms;
      }
    }
  }

  /**
   * The reading of a filter the translator must preserve: groups are conjunction,
   * disjunction and joint negation of their members, a term on several fields holds when
   * it holds on one of them, and an area holds for a record lying in one of its polygons
   * and outside that polygon's holes. `leaf` says which leaf queries a record matches.
   */
  predicate Holds(f: Filter, regions: Regions, leaf: Query -> bool)
  {
    match f
    case And(ms) => forall m :: m in ms ==> Holds(m, regions, leaf)
    case Or(ms) => exists m :: m in ms && Holds(m, regions, leaf)
    case Not(ms) => forall m :: m in ms ==> !Holds(m, regions, leaf)
    case StringEquals(fields, value) =>
      exists fd :: fd in fields && leaf(TermQuery(Search.PrefixField(fd), Text(value)))
    case StringContains(fields, value) =>
      if fields == [] then leaf(MatchQuery(MetaAll, value, true))
      else exists fd :: fd in fields && leaf(MatchQuery(FullField(fd), value, true))
    case NumberEquals(fields, number) =>
      exists fd :: fd in fields && leaf(TermQuery(NumberField(fd), Number(number)))
    case NumberRange(fields, lt, lti, gt, gti) =>
      exists fd :: fd in fields && leaf(RangeQuery(NumberField(fd), RangeBounds(lt, lti, gt, gti)))
    case Exists(fields, geoField) =>
      if geoField.GetOr(false) then leaf(ExistsQuery(MetaGeo))
      else exists fd :: fd in fields && leaf(ExistsQuery(Search.PrefixField(fd)))
    case GeoPoint(lat, lon, radius, unit) =>
      leaf(GeoDistanceQuery(MetaGeo, Distance(radius, unit), lat, lon))
    case GeoNamedArea(category, name) =>
      category in regions && InMultiPolygon(NamedPolygons(regions[category], name), leaf)
    case GeoCustomArea(coordinates) =>
      InMultiPolygon(coordinates, leaf)
  }

  /** A term over several fields, or-collapsed, matches when its leaf query matches on one field. */
  lemma FieldsDisjunction(make: string -> Query, fields: seq<string>, leaf: Query -> bool)
    requires forall fd :: !make(fd).BoolQuery?
    ensures Eval(BuildOr(MapSeq(make, fields)), leaf) <==> exists fd :: fd in fields && leaf(make(fd))
  {
    var qs := MapSeq(make, fields);
    BuildOrMeaning(qs, leaf);
    if exists c :: c in qs && Eval(c, leaf) {
      var c :| c in qs && Eval(c, leaf);
      var i :| 0 <= i < |qs| && qs[i] == c;
      assert fields[i] in fields;
    }
    if exists fd :: fd in fields && leaf(make(fd)) {
      var fd :| fd in fields && leaf(make(fd));
      var i :| 0 <= i < |fields| && fields[i] == fd;
      assert qs[i] in qs;
    }
  }

  /**
   * The translation is faithful: whenever it succeeds, a record matches the query exactly
   * when the filter holds for it, whatever the leaf queries match.
   */
  lemma {:induction false} TranslateMeaning(f: Filter, regions: Regions, leaf: Query -> bool)
    ensures Translate(f, regions).Ok? ==> (Eval(Translate(f, regions).value, leaf) <==> Holds(f, regions, leaf))
    decreases f
  {
    match f
    case And(ms) =>
      if TranslateMembers(ms, regions).Ok? {
        MembersMeaning(ms, regions, leaf);
        AndMeaning(TranslateMembers(ms, regions).value, ms, regions, leaf);
      }
    case Or(ms) =>
      if TranslateMembers(ms, regions).Ok? {
        MembersMeaning(ms, regions, leaf);
        OrMeaning(TranslateMembers(ms, regions).value, ms, regions, leaf);
      }
    case Not(ms) =>
      if TranslateMembers(ms, regions).Ok? {
        MembersMeaning(ms, regions, leaf);
        NotMeaning(TranslateMembers(ms, regions).value, ms, regions, leaf);
      }
    case _ => TermMeaning(f, regions, leaf);
  }

  /** Each member's translation matches exactly when the member holds. */
  lemma {:induction false} MembersMeaning(ms: seq<Filter>, regions: Regions, leaf: Query -> bool)
    requires TranslateMembers(ms, regions).Ok?
    ensures forall i :: 0 <= i < |ms| ==>
      (Eval(TranslateMembers(ms, regions).value[i], leaf) <==> Holds(ms[i], regions, leaf))
    decreases ms
  {
    var qs := TranslateMembers(ms, regions).value;
    forall i | 0 <= i < |ms|
      ensures Eval(qs[i], leaf) <==> Holds(ms[i], regions, leaf)
    {
      TranslateMeaning(ms[i], regions, leaf);
    }
  }

  /** Two lists whose elements agree pairwise agree on "all of them" and on "one of them". */
  lemma PairwiseAgree<A, B>(xs: seq<A>, ys: seq<B>, p: A -> bool, q: B -> bool)
    requires |xs| == |ys|
    requires forall i :: 0 <= i < |xs| ==> (p(xs[i]) <==> q(ys[i]))
    ensures (forall x :: x in xs ==> p(x)) <==> (forall y :: y in ys ==> q(y))
    ensures (exists x :: x in xs && p(x)) <==> (exists y :: y in ys && q(y))
  {
    if forall x :: x in xs ==> p(x) {
      forall y | y in ys ensures q(y) {
        var i :| 0 <= i < |ys| && ys[i] == y;
        assert xs[i] in xs;
      }
    }
    if forall y :: y in ys ==> q(y) {
      forall x | x in xs ensures p(x) {
        var i :| 0 <= i < |xs| && xs[i] == x;
        assert ys[i] in ys;
      }
    }
    if exists x :: x in xs && p(x) {
      var x :| x in xs && p(x);
      var i :| 0 <= i < |xs| && xs[i] == x;
      assert ys[i] in ys;
    }
    if exists y :: y in ys && q(y) {
      var y :| y in ys && q(y);
      var i :| 0 <= i < |ys| && ys[i] == y;
      assert xs[i] in xs;
    }
  }

  /** Each member's query matches exactly when the member holds, in the form `PairwiseAgree` needs. */
  lemma Pairwise(qs: seq<Query>, ms: seq<Filter>, regions: Regions, leaf: Query -> bool)
    requires |qs| == |ms|
    requires forall i :: 0 <= i < |ms| ==> (Eval(qs[i], leaf) <==> Holds(ms[i], regions, leaf))
    ensures (forall c :: c in qs ==> Eval(c, leaf)) <==> (forall m :: m in ms ==> Holds(m, regions, leaf))
    ensures (exists c :: c in qs && Eval(c, leaf)) <==> (exists m :: m in ms && Holds(m, regions, leaf))
  {
    var p := (c: Query) => Eval(c, leaf);
    var q := (m: Filter) => Holds(m, regions, leaf);
    PairwiseAgree(qs, ms, p, q);
  }

  /** An `and` group's query (its one member's query, or a bool `must` of them all) matches iff every member holds. */
  lemma AndMeaning(qs: seq<Query>, ms: seq<Filter>, regions: Regions, leaf: Query -> bool)
    requires |qs| == |ms|
    requires forall i :: 0 <= i < |ms| ==> (Eval(qs[i], leaf) <==> Holds(ms[i], regions, leaf))
    ensures Eval(if |qs| == 1 then qs[0] else BoolQuery(qs, [], [], None), leaf) <==>
      forall m :: m in ms ==> Holds(m, regions, leaf)
  {
    if |ms| == 1 {
      assert ms[0] in ms;
    } else {
      Pairwise(qs, ms, regions, leaf);
    }
  }

  /** An `or` group's query (`build_or` of the members' queries) matches iff some member holds. */
  lemma OrMeaning(qs: seq<Query>, ms: seq<Filter>, regions: Regions, leaf: Query -> bool)
    requires |qs| == |ms|
    requires forall i :: 0 <= i < |ms| ==> (Eval(qs[i], leaf) <==> Holds(ms[i], regions, leaf))
    ensures Eval(BuildOr(qs), leaf) <==> exists m :: m in ms && Holds(m, regions, leaf)
  {
    BuildOrMeaning(qs, leaf);
    Pairwise(qs, ms, regions, leaf);
  }

  /** A `not` group's query (a bool `must_not` of the members' queries) matches iff no member holds. */
  lemma NotMeaning(qs: seq<Query>, ms: seq<Filter>, regions: Regions, leaf: Query -> bool)
    requires |qs| == |ms|
    requires forall i :: 0 <= i < |ms| ==> (Eval(qs[i], leaf) <==> Holds(ms[i], regions, leaf))
    ensures Eval(BoolQuery([], [], qs, None), leaf) <==> forall m :: m in ms ==> !Holds(m, regions, leaf)
  {
    Pairwise(qs, ms, regions, leaf);
  }

  /** The terms: a leaf query on each field, or-collapsed, or a geometry query. */
  lemma TermMeaning(f: Filter, regions: Regions, leaf: Query -> bool)
    requires !f.And? && !f.Or? && !f.Not?
    ensures Translate(f, regions).Ok? ==> (Eval(Translate(f, regions).value, leaf) <==> Holds(f, regions, leaf))
  {
    match f
    case StringEquals(fields, value) =>
      FieldsDisjunction((fd: string) => TermQuery(Search.PrefixField(fd), Text(value)), fields, leaf);
    case StringContains(fields, value) =>
      if fields != [] {
        FieldsDisjunction((fd: string) => MatchQuery(FullField(fd), value, true), fields, leaf);
      }
    case NumberEquals(fields, number) =>
      FieldsDisjunction((fd: string) => TermQuery(NumberField(fd), Number(number)), fields, leaf);
    case NumberRange(fields, lt, lti, gt, gti) =>
      var bounds := RangeBounds(lt, lti, gt, gti);
      FieldsDisjunction((fd: string) => RangeQuery(NumberField(fd), bounds), fields, leaf);
    case Exists(fields, geoField) =>
      if !geoField.GetOr(false) {
        FieldsDisjunction((fd: string) => ExistsQuery(Search.PrefixField(fd)), fields, leaf);
      }
    case GeoPoint(_, _, _, _) =>
    case GeoNamedArea(category, name) =>
      if category in regions {
        MultipolygonQueryMeaning(NamedPolygons(regions[category], name), leaf);
      }
    case GeoCustomArea(coordinates) =>
      MultipolygonQueryMeaning(coordinates, leaf);
  }

  // ---------------------------------------------------------------------------
  // The whole query

  /**
   * `translate`: the `search` text as a `match` on `meta.all` with operator `and`, then the
   * filter tree's query, each added to the given search's query clauses only when present.
   */
  function TranslateDocument(doc: QueryDocument, regions: Regions, search: Search.SearchDesc)
    : (r: Result<Search.SearchDesc, TranslateError>)
    ensures r.Err? <==> doc.filters.Some? && Translate(doc.filters.value, regions).Err?
    ensures r.Ok? ==> r.value == search.(queries := search.queries
      + (if doc.search.Some? then [MatchQuery(MetaAll, doc.search.value, true)] else [])
      + (if doc.filters.Some? then [Translate(doc.filters.value, regions).value] else []))
  {
    var withSearch :=
      if doc.search.Some? then search.(queries := search.queries + [MatchQuery(MetaAll, doc.search.value, true)])
      else search;
    if doc.filters.Some? then
      var q :- Translate(doc.filters.value, regions);
      Ok(withSearch.(queries := withSearch.queries + [q]))
    else
      assert withSearch.queries + [] == withSearch.queries;
      Ok(withSearch)
  }

  /**
   * On a fresh search, a record matches every query clause of the translated document exactly
   * when it matches the search text (if any) and the filter tree holds for it (if any).
   */
  lemma DocumentMeaning(doc: QueryDocument, regions: Regions, leaf: Query -> bool)
    requires TranslateDocument(doc, regions, Search.EmptySearch).Ok?
    ensures var qs := TranslateDocument(doc, regions, Search.EmptySearch).value.queries;
      (forall c :: c in qs ==> Eval(c, leaf)) <==>
        && (doc.search.Some? ==> leaf(MatchQuery(MetaAll, doc.search.value, true)))
        && (doc.filters.Some? ==> Holds(doc.filters.value, regions, leaf))
  {
    var qs := TranslateDocument(doc, regions, Search.EmptySearch).value.queries;
    var text := if doc.search.Some? then [MatchQuery(MetaAll, doc.search.value, true)] else [];
    if doc.filters.Some? {
      TranslateMeaning(doc.filters.value, regions, leaf);
      var q := Translate(doc.filters.value, regions).value;
      assert qs == text + [q];
      assert q in qs;
    } else {
      assert qs == text;
    }
    if doc.search.Some? {
      assert qs[0] == MatchQuery(MetaAll, doc.search.value, true) && qs[0] in qs;
    }
  }
}
