/**
 * The v1.0.0 hasher (`v1_0_0Hasher` in lib/query/v1_0_0.py): the same grammar as the
 * translator, rendered as a canonical string. Group members, field lists and holes are
 * sorted so that their order does not matter; ring points are not, since their order is
 * the shape. The strings are fed into one SHA-1 digest, which is a parameter here.
 */
module Hasher {
  import opened Wrappers
  import opened EsQuery
  import opened QueryDsl
  import opened Strings
  import Translator
  import Search

  // ---------------------------------------------------------------------------
  // Groups and field lists

  /** A group's string: `op:[` + the sorted member strings joined by `|` + `]`. */
  function GroupString(op: string, memberStrings: seq<string>): string
  {
    op + ":[" + Join(Sort(memberStrings), "|") + "]"
  }

  /** A term's fields, sorted and joined by `,`. */
  function FieldList(fields: seq<string>): string
  {
    Join(Sort(fields), ",")
  }

  /** A group's string depends only on which member strings it has, not on their order. */
  lemma GroupStringOrderFree(op: string, hs: seq<string>, gs: seq<string>)
    requires multiset(hs) == multiset(gs)
    ensures GroupString(op, hs) == GroupString(op, gs)
  {
    SortPermutationInvariant(hs, gs);
  }

  /** A field list depends only on which fields it has, not on their order. */
  lemma FieldListOrderFree(fields: seq<string>, others: seq<string>)
    requires multiset(fields) == multiset(others)
    ensures FieldList(fields) == FieldList(others)
  {
    SortPermutationInvariant(fields, others);
  }

  // ---------------------------------------------------------------------------
  // number_range

  /** One bound of a `number_range`: nothing when absent, else `op`, `=` when inclusive (the default), the bound. */
  function BoundString(op: string, bound: Option<Num>, inclusive: Option<bool>): (s: string)
    ensures bound.None? ==> s == ""
    ensures bound.Some? && inclusive.GetOr(true) ==> s == op + "=" + bound.value
    ensures bound.Some? && !inclusive.GetOr(true) ==> s == op + bound.value
  {
    if bound.None? then "" else op + (if inclusive.GetOr(true) then "=" else "") + bound.value
  }

  /** The `number_range` string: the sorted fields, then the upper bound, then the lower bound. */
  function NumberRangeString(fields: seq<string>, lessThan: Option<Num>, lessThanInclusive: Option<bool>,
                             greaterThan: Option<Num>, greaterThanInclusive: Option<bool>): string
  {
    "number_range:" + FieldList(fields) + ";"
      + BoundString("<", lessThan, lessThanInclusive) + BoundString(">", greaterThan, greaterThanInclusive)
  }

  /** `create_number_range`: the string built piece by piece, each bound only when present. */
  method CreateNumberRange(fields: seq<string>, lessThan: Option<Num>, lessThanInclusive: Option<bool>,
                           greaterThan: Option<Num>, greaterThanInclusive: Option<bool>)
    returns (hashValue: string)
    ensures hashValue == NumberRangeString(fields, lessThan, lessThanInclusive, greaterThan, greaterThanInclusive)
  {
    hashValue := "number_range:" + FieldList(fields) + ";";
    hashValue := AppendBound(hashValue, "<", lessThan, lessThanInclusive);
    hashValue := AppendBound(hashValue, ">", greaterThan, greaterThanInclusive);
  }

  /** One bound's steps: the operator, `=` when inclusive, the bound, all only when the bound is given. */
  method AppendBound(hashValue: string, op: string, bound: Option<Num>, inclusive: Option<bool>)
    returns (r: string)
    ensures r == hashValue + BoundString(op, bound, inclusive)
  {
    var isInclusive := inclusive.GetOr(true);
    r := hashValue;
    if bound.Some? {
      r := r + op;
      if isInclusive {
        r := r + "=";
        assert r + bound.value == hashValue + (op + "=" + bound.value);
      } else {
        assert r + bound.value == hashValue + (op + bound.value);
      }
      r := r + bound.value;
    } else {
      assert hashValue + "" == hashValue;
    }
  }

  /**
   * The hasher renders the bounds the translator puts in its range query: `<=v` for an
   * `lte` bound, `<v` for `lt`, and likewise `>=`/`>` for `gte`/`gt`.
   */
  lemma RangeStringAgreesWithTranslator(lt: Option<Num>, lti: Option<bool>, gt: Option<Num>, gti: Option<bool>)
    ensures var b := Translator.RangeBounds(lt, lti, gt, gti);
      && BoundString("<", lt, lti) ==
           (if "lte" in b then "<=" + b["lte"] else if "lt" in b then "<" + b["lt"] else "")
      && BoundString(">", gt, gti) ==
           (if "gte" in b then ">=" + b["gte"] else if "gt" in b then ">" + b["gt"] else "")
  {
  }

  // ---------------------------------------------------------------------------
  // geo_custom_area

  /** One point as `[lat,lon]`: the GeoJSON `[lon, lat]` pair swapped, as in a geo_polygon query. */
  function PointString(p: Position): string
  {
    "[" + p.lat + "," + p.lon + "]"
  }

  /** The same rendering, for a point of a translated geo_polygon query. */
  function LatLonString(ll: LatLon): string
  {
    "[" + ll.lat + "," + ll.lon + "]"
  }

  /** `build_geo_polygon_query` of the hasher: the ring's points in their own order, joined by `,`. */
  function RingString(ring: Ring): string
  {
    Join(MapSeq(PointString, ring), ",")
  }

  /** Python 2's rendering of a list of unicode strings: `[u'a', u'b']`. */
  function ListRepr(items: seq<string>): string
  {
    "[" + Join(MapSeq((item: string) => "u'" + item + "'", items), ", ") + "]"
  }

  /** One polygon: its exterior ring, then `/` and the sorted list of hole strings when it has holes. */
  function PolygonString(p: Polygon): (s: string)
    ensures p.holes == [] ==> s == RingString(p.outer)
    ensures p.holes != [] ==> s == RingString(p.outer) + "/" + ListRepr(Sort(MapSeq(RingString, p.holes)))
  {
    if p.holes == [] then RingString(p.outer)
    else RingString(p.outer) + "/" + ListRepr(Sort(MapSeq(RingString, p.holes)))
  }

  /** The `geo_custom_area` string: the polygon strings in input order, joined by `;`. */
  function CustomAreaString(coordinates: seq<Polygon>): string
  {
    "geo_custom_area:" + Join(MapSeq(PolygonString, coordinates), ";")
  }

  /** `create_geo_custom_area`: the loop appending one string per polygon, then the join. */
  method CreateGeoCustomArea(coordinates: seq<Polygon>) returns (s: string)
    ensures s == CustomAreaString(coordinates)
  {
    var queries: seq<string> := [];
    var i := 0;
    while i < |coordinates|
      invariant 0 <= i <= |coordinates|
      invariant queries == MapSeq(PolygonString, coordinates[..i])
    {
      var polygon := coordinates[i];
      var outer, holes := polygon.outer, polygon.holes;
      var outerQuery := RingString(outer);
      var polygonString;
      if holes != [] {
        var holesQueries := Sort(MapSeq(RingString, holes));
        polygonString := outerQuery + "/" + ListRepr(holesQueries);
      } else {
        polygonString := outerQuery;
      }
      assert polygonString == PolygonString(coordinates[i]);
      MapSeqSnoc(PolygonString, coordinates, i);
      queries := queries + [polygonString];
      i := i + 1;
    }
    assert coordinates[..i] == coordinates;
    s := "geo_custom_area:" + Join(queries, ";");
  }

  /** Reordering a polygon's holes leaves its string unchanged. */
  lemma HolesOrderFree(outer: Ring, holes: seq<Ring>, others: seq<Ring>)
    requires multiset(holes) == multiset(others)
    ensures PolygonString(Polygon(outer, holes)) == PolygonString(Polygon(outer, others))
  {
    MapPermutation(RingString, holes, others);
    SortPermutationInvariant(MapSeq(RingString, holes), MapSeq(RingString, others));
    if holes == [] {
      assert |others| == |multiset(others)| == 0;
    } else {
      assert holes[0] in multiset(others);
    }
  }

  /**
   * The hasher renders exactly the points the translator puts in the ring's geo_polygon
   * query, in the same order: the ring's point order is part of the string.
   */
  lemma RingStringAgreesWithTranslator(ring: Ring)
    ensures RingString(ring) == Join(MapSeq(LatLonString, Translator.GeoPolygon(ring).points), ",")
  {
    var q := Translator.GeoPolygon(ring);
    assert MapSeq(PointString, ring) == MapSeq(LatLonString, q.points);
  }

  /** A ring's string is its first point's string, then `,` and the string of the other points when there are any. */
  lemma RingStringStartsWithFirstPoint(ring: Ring)
    requires ring != []
    ensures RingString(ring) ==
      PointString(ring[0]) + (if |ring| == 1 then "" else "," + RingString(ring[1..]))
    ensures "[" + ring[0].lat + "," <= RingString(ring)
  {
    var ps := MapSeq(PointString, ring);
    assert ps[1..] == MapSeq(PointString, ring[1..]);
    var rest := if |ring| == 1 then "" else "," + RingString(ring[1..]);
    assert RingString(ring) == PointString(ring[0]) + rest;
    var opening := "[" + ring[0].lat + ",";
    assert PointString(ring[0]) == opening + ring[0].lon + "]";
    assert RingString(ring) == opening + (ring[0].lon + "]" + rest);
  }

  /** Two openings `[a,` and `[b,` of one string, with comma-free `a` and `b`, are the same. */
  lemma OpeningLatitudeUnique(s: string, a: string, b: string)
    requires ',' !in a && ',' !in b
    requires "[" + a + "," <= s && "[" + b + "," <= s
    ensures a == b
  {
    assert s[1 + |a|] == ',' && s[1 + |b|] == ',';
    assert a == s[1..1 + |a|] && b == s[1..1 + |b|];
  }

  /** A one-polygon `geo_custom_area` string starts with `[lat,` of the outer ring's first point. */
  lemma CustomAreaOpening(p: Polygon)
    requires p.outer != []
    ensures Hash(GeoCustomArea([p])) == "geo_custom_area:" + PolygonString(p)
    ensures "[" + p.outer[0].lat + "," <= PolygonString(p)
  {
    assert MapSeq(PolygonString, [p]) == [PolygonString(p)];
    RingStringStartsWithFirstPoint(p.outer);
  }

  /**
   * The hasher keeps the order of a ring's points: swapping the first two points of a
   * polygon's outer ring changes the `geo_custom_area` string whenever their latitudes differ.
   */
  lemma RingOrderMatters(p: Position, q: Position, rest: Ring, holes: seq<Ring>)
    requires p.lat != q.lat && ',' !in p.lat && ',' !in q.lat
    ensures Hash(GeoCustomArea([Polygon([p, q] + rest, holes)])) !=
      Hash(GeoCustomArea([Polygon([q, p] + rest, holes)]))
  {
    var one, two := Polygon([p, q] + rest, holes), Polygon([q, p] + rest, holes);
    CustomAreaOpening(one);
    CustomAreaOpening(two);
    if Hash(GeoCustomArea([one])) == Hash(GeoCustomArea([two])) {
      var prefix := "geo_custom_area:";
      assert PolygonString(one) == (prefix + PolygonString(one))[|prefix|..];
      assert PolygonString(two) == (prefix + PolygonString(two))[|prefix|..];
      OpeningLatitudeUnique(PolygonString(one), p.lat, q.lat);
    }
  }

  /** A coordinate as rendered by the hasher: a number never holds `,`, `[` or `]`. */
  predicate PlainCoordinate(x: string)
  {
    ',' !in x && '[' !in x && ']' !in x
  }

  /** Every latitude and longitude of the ring is a plain coordinate. */
  predicate PlainRing(ring: Ring)
  {
    forall p :: p in ring ==> PlainCoordinate(p.lat) && PlainCoordinate(p.lon)
  }

  /** In a point's string only the closing bracket is a `]`. */
  lemma PointStringClosesOnce(p: Position)
    requires PlainCoordinate(p.lat) && PlainCoordinate(p.lon)
    ensures var s := PointString(p); s[|s| - 1] == ']' && ']' !in s[..|s| - 1]
  {
    var s := PointString(p);
    assert s[..|s| - 1] == "[" + p.lat + "," + p.lon;
  }

  /** A prefix of `s` that ends in its only `]` ends at the first `]` of `s`. */
  lemma ClosedAt(t: string, s: string)
    requires t <= s && t != [] && t[|t| - 1] == ']' && ']' !in t[..|t| - 1]
    ensures s[|t| - 1] == ']' && forall i :: 0 <= i < |t| - 1 ==> s[i] != ']'
  {
    forall i | 0 <= i < |t| - 1
      ensures s[i] != ']'
    {
      assert s[i] == t[..|t| - 1][i];
    }
  }

  /** A point's string followed by anything can be read back: the point and what follows are fixed. */
  lemma PointStringPrefixUnique(a: Position, b: Position, x: string, y: string)
    requires PlainCoordinate(a.lat) && PlainCoordinate(a.lon)
    requires PlainCoordinate(b.lat) && PlainCoordinate(b.lon)
    requires PointString(a) + x == PointString(b) + y
    ensures a == b && x == y
  {
    var sa, sb := PointString(a), PointString(b);
    var s := sa + x;
    PointStringClosesOnce(a);
    PointStringClosesOnce(b);
    ClosedAt(sa, s);
    ClosedAt(sb, s);
    assert sa == s[..|sa|] == sb;
    assert x == s[|sa|..] == y;
    assert sa[1..] == a.lat + "," + a.lon + "]";
    assert sb[1..] == b.lat + "," + b.lon + "]";
    OpeningLatitudeUnique(sa, a.lat, b.lat);
    assert a.lon == sa[2 + |a.lat|..|sa| - 1];
  }

  /** Only the empty ring has the empty string. */
  lemma RingStringEmpty(ring: Ring)
    ensures RingString(ring) == "" <==> ring == []
  {
    if ring != [] {
      RingStringStartsWithFirstPoint(ring);
    }
  }

  /** Distinct rings of plain coordinates have distinct strings: the ring string keeps every point and its place. */
  lemma {:induction false} RingStringInjective(ring: Ring, other: Ring)
    requires PlainRing(ring) && PlainRing(other)
    requires RingString(ring) == RingString(other)
    ensures ring == other
    decreases |ring|
  {
    RingStringEmpty(ring);
    RingStringEmpty(other);
    if ring != [] && other != [] {
      RingStringStartsWithFirstPoint(ring);
      RingStringStartsWithFirstPoint(other);
      var t1 := if |ring| == 1 then "" else "," + RingString(ring[1..]);
      var t2 := if |other| == 1 then "" else "," + RingString(other[1..]);
      assert ring[0] in ring && other[0] in other;
      PointStringPrefixUnique(ring[0], other[0], t1, t2);
      assert t1 == "" <==> |ring| == 1;
      assert t2 == "" <==> |other| == 1;
      if |ring| > 1 && |other| > 1 {
        assert RingString(ring[1..]) == t1[1..] == t2[1..] == RingString(other[1..]);
        assert forall p :: p in ring[1..] ==> p in ring;
        assert forall p :: p in other[1..] ==> p in other;
        RingStringInjective(ring[1..], other[1..]);
      }
      assert ring == [ring[0]] + ring[1..];
      assert other == [other[0]] + other[1..];
    }
  }

  /** A one-polygon `geo_custom_area` hash: the prefix, the outer ring's string, then the holes' part. */
  lemma OnePolygonHash(p: Polygon) returns (tail: string)
    ensures tail == if p.holes == [] then "" else "/" + ListRepr(Sort(MapSeq(RingString, p.holes)))
    ensures Hash(GeoCustomArea([p])) == "geo_custom_area:" + (RingString(p.outer) + tail)
  {
    assert MapSeq(PolygonString, [p]) == [PolygonString(p)];
    tail := if p.holes == [] then "" else "/" + ListRepr(Sort(MapSeq(RingString, p.holes)));
    assert PolygonString(p) == RingString(p.outer) + tail;
  }

  /** Strings that agree around their middles agree in their middles. */
  lemma MiddleCancel(a: string, x: string, y: string, b: string)
    requires a + (x + b) == a + (y + b)
    ensures x == y
  {
    assert x + b == (a + (x + b))[|a|..];
    assert y + b == (a + (y + b))[|a|..];
    assert x == (x + b)[..|x|];
  }

  /**
   * The outer ring fixes a one-polygon `geo_custom_area` hash: with plain coordinates, two
   * different outer rings over the same holes never hash alike, whatever the change is
   * (a reordering, a reversal, a moved or dropped point).
   */
  lemma OuterRingDeterminesHash(outer: Ring, other: Ring, holes: seq<Ring>)
    requires PlainRing(outer) && PlainRing(other) && outer != other
    ensures Hash(GeoCustomArea([Polygon(outer, holes)])) != Hash(GeoCustomArea([Polygon(other, holes)]))
  {
    var one, two := Polygon(outer, holes), Polygon(other, holes);
    var tail := OnePolygonHash(one);
    var tail' := OnePolygonHash(two);
    if Hash(GeoCustomArea([one])) == Hash(GeoCustomArea([two])) {
      MiddleCancel("geo_custom_area:", RingString(outer), RingString(other), tail);
      RingStringInjective(outer, other);
    }
  }

  /** A sequence in reverse order. */
  function Reverse<T>(s: seq<T>): (r: seq<T>)
    ensures |r| == |s| && forall i :: 0 <= i < |s| ==> r[i] == s[|s| - 1 - i]
  {
    if s == [] then [] else Reverse(s[1..]) + [s[0]]
  }

  /**
   * Reversing the outer ring's point order changes a one-polygon `geo_custom_area` hash,
   * unless the ring reads the same both ways. A closed GeoJSON ring keeps its first point
   * when reversed, so the change shows in the later points.
   */
  lemma RingReversalMatters(outer: Ring, holes: seq<Ring>)
    requires PlainRing(outer) && outer != Reverse(outer)
    ensures Hash(GeoCustomArea([Polygon(outer, holes)])) != Hash(GeoCustomArea([Polygon(Reverse(outer), holes)]))
  {
    var back := Reverse(outer);
    forall p | p in back
      ensures p in outer
    {
      var i :| 0 <= i < |back| && back[i] == p;
      assert outer[|outer| - 1 - i] == p;
    }
    OuterRingDeterminesHash(outer, back, holes);
  }

  /** A closed square ring that is not the same reversed, so the lemma above applies to real input. */
  lemma ClosedRingReversed()
    ensures var ring := [Position("0", "0"), Position("1", "0"), Position("1", "1"), Position("0", "0")];
      ring != Reverse(ring) && ring[0] == ring[|ring| - 1] && PlainRing(ring)
  {
    var ring := [Position("0", "0"), Position("1", "0"), Position("1", "1"), Position("0", "0")];
    assert Reverse(ring)[1] == Position("1", "1");
  }

  // ---------------------------------------------------------------------------
  // The whole filter tree

  /** `create_group_or_term` of the hasher and the `create_*` method its operator selects. */
  function Hash(f: Filter): string
    decreases f
  {
    match f
    case And(ms) => GroupString("and", HashMembers(ms))
    case Or(ms) => GroupString("or", HashMembers(ms))
    case Not(ms) => GroupString("not", HashMembers(ms))
    case StringEquals(fields, value) => "string_equals:" + FieldList(fields) + ";" + value
    case StringContains(fields, value) => "string_contains:" + FieldList(fields) + ";" + value
    case NumberEquals(fields, number) => "number_equals:" + FieldList(fields) + ";" + number
    case NumberRange(fields, lt, lti, gt, gti) => NumberRangeString(fields, lt, lti, gt, gti)
    case Exists(fields, geoField) => if geoField.GetOr(false) then "geo_exists" else "exists:" + FieldList(fields)
    case GeoPoint(lat, lon, radius, unit) =>
      "geo_point:" + Translator.Distance(radius, unit) + ";" + lat + ";" + lon
    case GeoNamedArea(category, name) => "geo_named_area:" + category + ";" + name
    case GeoCustomArea(coordinates) => CustomAreaString(coordinates)
  }

  /** The member strings of a group, in member order (before sorting). */
  function HashMembers(ms: seq<Filter>): (hs: seq<string>)
    ensures |hs| == |ms| && forall i :: 0 <= i < |ms| ==> hs[i] == Hash(ms[i])
    decreases ms
  {
    if ms == [] then []
    else [Hash(ms[0])] + HashMembers(ms[1..])
  }

  /**
   * A group's string is fixed by the multiset of its members' strings: members can be
   * reordered, and replaced by members with the same string, at any depth.
   */
  lemma GroupDependsOnMemberStrings(ms: seq<Filter>, ns: seq<Filter>)
    requires multiset(HashMembers(ms)) == multiset(HashMembers(ns))
    ensures Hash(And(ms)) == Hash(And(ns))
    ensures Hash(Or(ms)) == Hash(Or(ns))
    ensures Hash(Not(ms)) == Hash(Not(ns))
  {
    GroupStringOrderFree("and", HashMembers(ms), HashMembers(ns));
    GroupStringOrderFree("or", HashMembers(ms), HashMembers(ns));
    GroupStringOrderFree("not", HashMembers(ms), HashMembers(ns));
  }

  /** Any reordering of a group's members gives the same string. */
  lemma GroupOrderFree(ms: seq<Filter>, ns: seq<Filter>)
    requires multiset(ms) == multiset(ns)
    ensures Hash(And(ms)) == Hash(And(ns))
    ensures Hash(Or(ms)) == Hash(Or(ns))
    ensures Hash(Not(ms)) == Hash(Not(ns))
  {
    MapPermutation(Hash, ms, ns);
    assert HashMembers(ms) == MapSeq(Hash, ms) && HashMembers(ns) == MapSeq(Hash, ns);
    GroupDependsOnMemberStrings(ms, ns);
  }

  /** Any reordering of a term's fields gives the same string. */
  lemma FieldsOrderFree(f: Filter, others: seq<string>)
    requires f.StringEquals? || f.StringContains? || f.NumberEquals? || f.NumberRange? || f.Exists?
    requires multiset(f.fields) == multiset(others)
    ensures Hash(f) == Hash(f.(fields := others))
  {
    FieldListOrderFree(f.fields, others);
  }

  /**
   * Reordering the members of a group does not change what it means either, which is what
   * makes a hash that forgets the order sound.
   */
  lemma GroupOrderKeepsMeaning(ms: seq<Filter>, ns: seq<Filter>, regions: Translator.Regions,
                               leaf: Query -> bool)
    requires multiset(ms) == multiset(ns)
    ensures Translator.Holds(And(ms), regions, leaf) <==> Translator.Holds(And(ns), regions, leaf)
    ensures Translator.Holds(Or(ms), regions, leaf) <==> Translator.Holds(Or(ns), regions, leaf)
    ensures Translator.Holds(Not(ms), regions, leaf) <==> Translator.Holds(Not(ns), regions, leaf)
  {
    forall m ensures m in ms <==> m in ns {
      assert m in ms <==> m in multiset(ms);
      assert m in ns <==> m in multiset(ns);
    }
  }

  // ---------------------------------------------------------------------------
  // The whole query

  /** What `hash_query` feeds the digest: `search:<text>` when present, then `filters:<string>` when present. */
  function Preimage(doc: QueryDocument): (s: string)
    ensures doc.search.None? && doc.filters.None? ==> s == ""
    ensures doc.search.Some? ==> "search:" + doc.search.value <= s
    ensures doc.filters.Some? ==> EndsWith(s, "filters:" + Hash(doc.filters.value))
    ensures |s| == (if doc.search.Some? then 7 + |doc.search.value| else 0)
      + (if doc.filters.Some? then 8 + |Hash(doc.filters.value)| else 0)
  {
    var searchPart := if doc.search.Some? then "search:" + doc.search.value else "";
    var filtersPart := if doc.filters.Some? then "filters:" + Hash(doc.filters.value) else "";
    assert (searchPart + filtersPart)[..|searchPart|] == searchPart;
    assert (searchPart + filtersPart)[|searchPart|..] == filtersPart;
    searchPart + filtersPart
  }

  /** `hash_query`: the hex digest of the pre-image, for a given digest function. */
  function HashQuery(doc: QueryDocument, digest: string -> string): string
  {
    digest(Preimage(doc))
  }

  /**
   * `hash_query` as written: one digest object fed the search part and then the filters
   * part. A digest of a stream depends only on the concatenation of what it was fed, so
   * the stream is kept as the text fed so far.
   */
  method HashQueryStream(doc: QueryDocument, digest: string -> string) returns (hex: string)
    ensures hex == HashQuery(doc, digest)
  {
    ghost var searchPart := if doc.search.Some? then "search:" + doc.search.value else "";
    ghost var filtersPart := if doc.filters.Some? then "filters:" + Hash(doc.filters.value) else "";
    var fed := "";
    if doc.search.Some? {
      fed := fed + ("search:" + doc.search.value);
    }
    assert fed == searchPart;
    if doc.filters.Some? {
      var filters := Hash(doc.filters.value);
      fed := fed + ("filters:" + filters);
    } else {
      assert fed == fed + filtersPart;
    }
    assert fed == searchPart + filtersPart;
    hex := digest(fed);
  }

  /** Documents whose filter trees differ only in the order of a top group's members hash alike. */
  lemma HashQueryGroupOrderFree(search: Option<string>, ms: seq<Filter>, ns: seq<Filter>,
                                digest: string -> string)
    requires multiset(ms) == multiset(ns)
    ensures HashQuery(QueryDocument(search, Some(And(ms))), digest) == HashQuery(QueryDocument(search, Some(And(ns))), digest)
    ensures HashQuery(QueryDocument(search, Some(Or(ms))), digest) == HashQuery(QueryDocument(search, Some(Or(ns))), digest)
    ensures HashQuery(QueryDocument(search, Some(Not(ms))), digest) == HashQuery(QueryDocument(search, Some(Not(ns))), digest)
  {
    GroupOrderFree(ms, ns);
  }

  /**
   * The pre-image does not separate the search text from the filters: a search ending in
   * `filters:geo_exists` and a shorter search with a `geo_exists` filter feed the digest
   * the same string, though they translate to different queries.
   */
  lemma PreimageDoesNotSeparateParts()
    ensures var alone := QueryDocument(Some("x" + "filters:" + "geo_exists"), None);
      var split := QueryDocument(Some("x"), Some(Exists([], Some(true))));
      && Preimage(alone) == Preimage(split)
      && Translator.TranslateDocument(alone, map[], Search.EmptySearch)
         != Translator.TranslateDocument(split, map[], Search.EmptySearch)
  {
    var alone := QueryDocument(Some("x" + "filters:" + "geo_exists"), None);
    var split := QueryDocument(Some("x"), Some(Exists([], Some(true))));
    assert Hash(Exists([], Some(true))) == "geo_exists";
    SearchAbsorbsFilters("x", Exists([], Some(true)));
    TranslatedQueryCounts(alone, split);
  }

  /**
   * A search text followed by `filters:` and a filter's string feeds the digest the same
   * string as the shorter search text together with that filter.
   */
  lemma SearchAbsorbsFilters(text: string, f: Filter)
    ensures Preimage(QueryDocument(Some(text + "filters:" + Hash(f)), None))
      == Preimage(QueryDocument(Some(text), Some(f)))
  {
    var h := Hash(f);
    PreimageOfParts(Some(text + "filters:" + h), None);
    PreimageOfParts(Some(text), Some(f));
    RegroupParts("search:", text, "filters:", h);
  }

  /** Concatenation regrouped: the search part can absorb the start of the filters part. */
  lemma RegroupParts(a: string, b: string, c: string, d: string)
    ensures a + (b + c + d) + "" == a + b + (c + d)
  {
    assert b + c + d == b + (c + d);
  }

  /** The digest input of a document, part by part. */
  lemma PreimageOfParts(search: Option<string>, filters: Option<Filter>)
    ensures Preimage(QueryDocument(search, filters)) ==
      (if search.Some? then "search:" + search.value else "")
      + (if filters.Some? then "filters:" + Hash(filters.value) else "")
  {
  }

  /** A document with only a search translates to one query; one with a search and a filter, to two. */
  lemma TranslatedQueryCounts(alone: QueryDocument, split: QueryDocument)
    requires alone.search.Some? && alone.filters.None?
    requires split.search.Some? && split.filters == Some(Exists([], Some(true)))
    ensures Translator.TranslateDocument(alone, map[], Search.EmptySearch).Ok?
    ensures Translator.TranslateDocument(split, map[], Search.EmptySearch).Ok?
    ensures |Translator.TranslateDocument(alone, map[], Search.EmptySearch).value.queries| == 1
    ensures |Translator.TranslateDocument(split, map[], Search.EmptySearch).value.queries| == 2
  {
  }
}
