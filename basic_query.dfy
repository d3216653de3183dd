/**
 * Helpers of the basic query interface (lib/basic_query/utils.py): reshaping the facet
 * aggregations of a search response, and the field list of a resource at a version with
 * its process-wide cache. The Elasticsearch mapping, the ingestion details of each version
 * and the per-field hit counts are inputs here.
 */
module BasicQuery {
  import opened Wrappers
  import opened Strings

  // ---------------------------------------------------------------------------
  // Facets

  /** One bucket of a terms aggregation. */
  datatype Bucket = Bucket(key: string, docCount: int)

  /** A terms aggregation result as the search returns it. */
  datatype Aggregation = Aggregation(sumOtherDocCount: int, docCountErrorUpperBound: int, buckets: seq<Bucket>)

  /** The `details` part of a formatted facet. */
  datatype FacetDetails = FacetDetails(sumOtherDocCount: int, docCountErrorUpperBound: int)

  /** A formatted facet: its details and a map from each value to its count. */
  datatype Facet = Facet(details: FacetDetails, values: map<string, int>)

  /** The keys of the buckets. */
  function BucketKeys(buckets: seq<Bucket>): set<string>
  {
    set b | b in buckets :: b.key
  }

  /**
   * The dict `{bucket.key: bucket.doc_count}` built bucket after bucket: when two buckets
   * share a key, the later one's count is kept.
   */
  function BucketValues(buckets: seq<Bucket>): (m: map<string, int>)
    ensures m.Keys == BucketKeys(buckets)
  {
    if buckets == [] then map[]
    else
      var last := buckets[|buckets| - 1];
      var m := BucketValues(buckets[..|buckets| - 1])[last.key := last.docCount];
      assert forall b :: b in buckets <==> b in buckets[..|buckets| - 1] || b == last;
      m
  }

  /** Each value is mapped to the count of the last bucket with that key. */
  lemma {:induction false} BucketValuesLastWins(buckets: seq<Bucket>, i: nat)
    requires i < |buckets|
    requires forall j :: i < j < |buckets| ==> buckets[j].key != buckets[i].key
    ensures BucketValues(buckets)[buckets[i].key] == buckets[i].docCount
    decreases |buckets|
  {
    if i < |buckets| - 1 {
      BucketValuesLastWins(buckets[..|buckets| - 1], i);
    }
  }

  /** The formatted form of one aggregation. */
  function FormatFacet(agg: Aggregation): (f: Facet)
    ensures f.details.sumOtherDocCount == agg.sumOtherDocCount
    ensures f.details.docCountErrorUpperBound == agg.docCountErrorUpperBound
    ensures f.values.Keys == BucketKeys(agg.buckets)
  {
    Facet(FacetDetails(agg.sumOtherDocCount, agg.docCountErrorUpperBound), BucketValues(agg.buckets))
  }

  /** `format_facets`: one formatted facet per aggregation, under the same name. */
  method FormatFacets(aggs: map<string, Aggregation>) returns (facets: map<string, Facet>)
    ensures facets.Keys == aggs.Keys
    ensures forall name :: name in aggs ==> facets[name] == FormatFacet(aggs[name])
  {
    facets := map[];
    var todo := aggs.Keys;
    while todo != {}
      invariant todo <= aggs.Keys
      invariant facets.Keys == aggs.Keys - todo
      invariant forall name :: name in facets ==> facets[name] == FormatFacet(aggs[name])
      decreases todo
    {
      var name :| name in todo;
      facets := facets[name := FormatFacet(aggs[name])];
      todo := todo - {name};
    }
  }

  // ---------------------------------------------------------------------------
  // Field names

  /** The id column, always listed first and never among the other fields. */
  const IdField: string := "_id"

  /** The elements of a list, as a set. */
  function Elements(s: seq<string>): set<string>
  {
    set c | c in s
  }

  /** `[c for c in cols if c not in seen]`. */
  function NotIn(cols: seq<string>, seen: set<string>): (r: seq<string>)
    ensures forall c :: c in r <==> c in cols && c !in seen
    ensures NoDup(cols) ==> NoDup(r)
  {
    if cols == [] then []
    else
      var rest := NotIn(cols[1..], seen);
      assert forall c :: c in cols <==> c == cols[0] || c in cols[1..];
      if cols[0] !in seen then
        assert NoDup(cols) ==> NoDup(cols[1..]) && cols[0] !in cols[1..];
        [cols[0]] + rest
      else rest
  }

  /**
   * The names contributed by the ingestion details, `details` being in ascending version
   * order: the newest version's columns first, then each older version's columns not
   * already listed (or in `seen`).
   */
  function DetailsNames(details: seq<seq<string>>, seen: set<string>): seq<string>
    decreases |details|
  {
    if details == [] then []
    else
      var cols := NotIn(details[|details| - 1], seen);
      cols + DetailsNames(details[..|details| - 1], seen + Elements(cols))
  }

  /** The ordered field names of `get_fields`: the details' names, then the unlisted mapped fields sorted. */
  function FieldNames(details: seq<seq<string>>, mapped: seq<string>): seq<string>
  {
    var names := DetailsNames(details, {IdField});
    names + NotIn(Sort(mapped), {IdField} + Elements(names))
  }

  /** A name is listed by the details exactly when some version has it and it is not in `seen`. */
  lemma {:induction false} DetailsNamesMembers(details: seq<seq<string>>, seen: set<string>, c: string)
    ensures c in DetailsNames(details, seen) <==>
      c !in seen && exists v :: 0 <= v < |details| && c in details[v]
    decreases |details|
  {
    if details != [] {
      var last := |details| - 1;
      var cols := NotIn(details[last], seen);
      DetailsNamesMembers(details[..last], seen + Elements(cols), c);
      if c in DetailsNames(details[..last], seen + Elements(cols)) {
        var v :| 0 <= v < last && c in details[..last][v];
        assert c in details[v];
      }
      if c !in seen && c !in cols && exists v :: 0 <= v < |details| && c in details[v] {
        var v :| 0 <= v < |details| && c in details[v];
        assert v != last;
        assert c in details[..last][v];
      }
    }
  }

  /** The details list each name once when each version's columns have no duplicates. */
  lemma {:induction false} DetailsNamesNoDup(details: seq<seq<string>>, seen: set<string>)
    requires forall v :: 0 <= v < |details| ==> NoDup(details[v])
    ensures NoDup(DetailsNames(details, seen))
    decreases |details|
  {
    if details != [] {
      var last := |details| - 1;
      var cols := NotIn(details[last], seen);
      var rest := DetailsNames(details[..last], seen + Elements(cols));
      DetailsNamesNoDup(details[..last], seen + Elements(cols));
      forall c | c in cols
        ensures c !in rest
      {
        DetailsNamesMembers(details[..last], seen + Elements(cols), c);
      }
      NoDupAppend(cols, rest);
    }
  }

  /** `_id` is never among the field names. */
  lemma FieldNamesExcludeId(details: seq<seq<string>>, mapped: seq<string>)
    ensures IdField !in FieldNames(details, mapped)
  {
    DetailsNamesMembers(details, {IdField}, IdField);
  }

  /** The field names are exactly the columns of any version and the mapped fields, `_id` aside. */
  lemma FieldNamesMembers(details: seq<seq<string>>, mapped: seq<string>, c: string)
    ensures c in FieldNames(details, mapped) <==>
      c != IdField && (c in mapped || exists v :: 0 <= v < |details| && c in details[v])
  {
    DetailsNamesMembers(details, {IdField}, c);
    assert c in Sort(mapped) <==> c in mapped by {
      assert c in multiset(Sort(mapped)) <==> c in multiset(mapped);
    }
  }

  /** Each field name is listed once, given duplicate-free columns per version. */
  lemma FieldNamesNoDup(details: seq<seq<string>>, mapped: seq<string>)
    requires forall v :: 0 <= v < |details| ==> NoDup(details[v])
    requires NoDup(mapped)
    ensures NoDup(FieldNames(details, mapped))
  {
    var names := DetailsNames(details, {IdField});
    DetailsNamesNoDup(details, {IdField});
    var sorted := Sort(mapped);
    SortNoDup(mapped);
    NoDupAppend(names, NotIn(sorted, {IdField} + Elements(names)));
  }

  /** Sorting a duplicate-free list keeps it duplicate-free. */
  lemma SortNoDup(s: seq<string>)
    requires NoDup(s)
    ensures NoDup(Sort(s))
  {
    var sorted := Sort(s);
    forall i, j | 0 <= i < j < |sorted|
      ensures sorted[i] != sorted[j]
    {
      if sorted[i] == sorted[j] {
        TwiceCounted(sorted, i, j);
        NoDupCount(s, sorted[i]);
      }
    }
  }

  /** An element at two indices occurs at least twice. */
  lemma TwiceCounted(s: seq<string>, i: nat, j: nat)
    requires i < j < |s| && s[i] == s[j]
    ensures multiset(s)[s[i]] >= 2
  {
    assert s == s[..i] + [s[i]] + s[i + 1..j] + [s[j]] + s[j + 1..];
  }

  /** In a duplicate-free list every element occurs at most once. */
  lemma {:induction false} NoDupCount(s: seq<string>, x: string)
    requires NoDup(s)
    ensures multiset(s)[x] <= 1
  {
    if s != [] {
      assert s == [s[0]] + s[1..];
      NoDupCount(s[1..], x);
      if s[0] == x {
        assert x !in s[1..];
      }
    }
  }

  /** The newest version's columns, `_id` aside, come first and in their source order. */
  lemma NewestVersionFirst(details: seq<seq<string>>, mapped: seq<string>)
    requires details != []
    ensures NotIn(details[|details| - 1], {IdField}) <= FieldNames(details, mapped)
  {
  }

  /** Mapped fields that no version lists come after the details' names, in sorted order. */
  lemma MappedFieldsSortedLast(details: seq<seq<string>>, mapped: seq<string>)
    ensures DetailsNames(details, {IdField}) <= FieldNames(details, mapped)
    ensures Sorted(FieldNames(details, mapped)[|DetailsNames(details, {IdField})|..])
  {
    var names := DetailsNames(details, {IdField});
    var tail := NotIn(Sort(mapped), {IdField} + Elements(names));
    assert FieldNames(details, mapped)[|names|..] == tail;
    NotInSorted(Sort(mapped), {IdField} + Elements(names));
  }

  /** Filtering a sorted list keeps it sorted. */
  lemma {:induction false} NotInSorted(s: seq<string>, seen: set<string>)
    requires Sorted(s)
    ensures Sorted(NotIn(s, seen))
  {
    if s != [] {
      NotInSorted(s[1..], seen);
      var rest := NotIn(s[1..], seen);
      if s[0] !in seen {
        forall j | 0 <= j < |rest|
          ensures Le(s[0], rest[j])
        {
          assert rest[j] in rest;
          var k :| 0 <= k < |s[1..]| && s[1..][k] == rest[j];
          assert s[k + 1] == rest[j];
        }
      }
    }
  }

  /** The field names do not depend on the order in which the mapping lists its fields. */
  lemma FieldNamesMappingOrderFree(details: seq<seq<string>>, mapped: seq<string>, reordered: seq<string>)
    requires multiset(mapped) == multiset(reordered)
    ensures FieldNames(details, mapped) == FieldNames(details, reordered)
  {
    SortPermutationInvariant(mapped, reordered);
  }

  /** Filtering keeps every copy of an unseen name and drops every copy of a seen one. */
  lemma {:induction false} NotInCount(cols: seq<string>, seen: set<string>, c: string)
    ensures multiset(NotIn(cols, seen))[c] == if c in seen then 0 else multiset(cols)[c]
  {
    if cols != [] {
      NotInCount(cols[1..], seen, c);
      assert cols == [cols[0]] + cols[1..];
    }
  }

  /**
   * A name of the newest version is listed exactly as often as that version's columns
   * repeat it: the duplicate filter only looks at earlier versions, so a repeated column
   * is listed twice.
   */
  lemma RepeatedColumnListedTwice(details: seq<seq<string>>, mapped: seq<string>, c: string)
    requires details != [] && c != IdField && c in details[|details| - 1]
    ensures multiset(FieldNames(details, mapped))[c] == multiset(details[|details| - 1])[c]
  {
    var last := |details| - 1;
    var cols := NotIn(details[last], {IdField});
    var rest := DetailsNames(details[..last], {IdField} + Elements(cols));
    var names := DetailsNames(details, {IdField});
    assert names == cols + rest;
    DetailsNamesMembers(details[..last], {IdField} + Elements(cols), c);
    NotInCount(details[last], {IdField}, c);
    NotInCount(Sort(mapped), {IdField} + Elements(names), c);
    assert c in names;
  }

  lemma DetailsNamesStep(details: seq<seq<string>>, v: nat, seen: set<string>)
    requires 0 < v <= |details|
    ensures DetailsNames(details[..v], seen)
      == NotIn(details[v - 1], seen) + DetailsNames(details[..v - 1], seen + Elements(NotIn(details[v - 1], seen)))
  {
    assert details[..v][..v - 1] == details[..v - 1];
  }

  lemma ElementsAppend(a: seq<string>, b: seq<string>)
    ensures Elements(a + b) == Elements(a) + Elements(b)
  {
  }

  /** `get_fields` collecting the field names, newest version first. */
  method CollectFieldNames(details: seq<seq<string>>, mapped: seq<string>) returns (names: seq<string>)
    ensures names == FieldNames(details, mapped)
  {
    var seen := {IdField};
    names := [];
    var v := |details|;
    assert details[..v] == details;
    while v > 0
      invariant 0 <= v <= |details|
      invariant names + DetailsNames(details[..v], seen) == DetailsNames(details, {IdField})
      invariant seen == {IdField} + Elements(names)
    {
      var cols := NotIn(details[v - 1], seen);
      DetailsNamesStep(details, v, seen);
      ElementsAppend(names, cols);
      names := names + cols;
      seen := seen + Elements(cols);
      v := v - 1;
    }
    assert details[..0] == [];
    assert names == DetailsNames(details, {IdField});
    names := names + NotIn(Sort(mapped), seen);
  }

  // ---------------------------------------------------------------------------
  // Fields and the cache

  /** A field as the front end expects it: its name and type. */
  datatype FieldInfo = FieldInfo(id: string, fieldType: string)

  /** The always-present id field. */
  const IdInfo: FieldInfo := FieldInfo(IdField, "integer")

  /** The index mapping, reduced to the field names under `data`. */
  datatype Mapping = Mapping(mappedFields: seq<string>)

  /** The names with at least one document at the version, in order, each as a string field. */
  function Included(names: seq<string>, hits: string -> nat): (fs: seq<FieldInfo>)
    ensures |fs| <= |names|
    ensures forall f :: f in fs ==> f.fieldType == "string" && f.id in names && hits(f.id) > 0
  {
    if names == [] then []
    else
      var rest := Included(names[..|names| - 1], hits);
      var n := names[|names| - 1];
      if hits(n) > 0 then rest + [FieldInfo(n, "string")] else rest
  }

  /** Every name with a hit is included. */
  lemma {:induction false} IncludedComplete(names: seq<string>, hits: string -> nat, n: string)
    requires n in names && hits(n) > 0
    ensures FieldInfo(n, "string") in Included(names, hits)
    decreases |names|
  {
    if names[|names| - 1] != n {
      assert n in names[..|names| - 1];
      IncludedComplete(names[..|names| - 1], hits, n);
    }
  }

  /** The field list: `_id` first, then the included names. */
  function Fields(names: seq<string>, hits: string -> nat): seq<FieldInfo>
  {
    [IdInfo] + Included(names, hits)
  }

  /** `_id` first as an integer, every other entry a string field other than `_id`. */
  predicate WellFormedFields(fs: seq<FieldInfo>)
  {
    |fs| >= 1 && fs[0] == IdInfo && forall i :: 1 <= i < |fs| ==> fs[i].fieldType == "string" && fs[i].id != IdField
  }

  /** The fields computed for any details and mapping are well formed. */
  lemma FieldsWellFormed(details: seq<seq<string>>, mapped: seq<string>, hits: string -> nat)
    ensures WellFormedFields(Fields(FieldNames(details, mapped), hits))
  {
    var fs := Fields(FieldNames(details, mapped), hits);
    FieldNamesExcludeId(details, mapped);
    forall i | 1 <= i < |fs|
      ensures fs[i].fieldType == "string" && fs[i].id != IdField
    {
      assert fs[i] in Included(FieldNames(details, mapped), hits);
    }
  }

  /** `get_fields` selecting, in name order, the fields that have documents. */
  method IncludeFields(names: seq<string>, hits: string -> nat) returns (fields: seq<FieldInfo>)
    ensures fields == Fields(names, hits)
  {
    fields := [IdInfo];
    var i := 0;
    while i < |names|
      invariant 0 <= i <= |names|
      invariant fields == Fields(names[..i], hits)
    {
      assert names[..i + 1][..i] == names[..i];
      if hits(names[i]) > 0 {
        fields := fields + [FieldInfo(names[i], "string")];
      }
      i := i + 1;
    }
    assert names[..i] == names;
  }

  /** The process-wide `field_cache`, keyed on the resource and its rounded version. */
  class FieldCache {
    var cache: map<(string, Option<int>), (Mapping, seq<FieldInfo>)>

    /** Only real versions are stored, and every stored field list is well formed. */
    ghost predicate Valid()
      reads this
    {
      forall key :: key in cache ==> key.1.Some? && WellFormedFields(cache[key].1)
    }

    constructor()
      ensures Valid() && cache == map[]
    {
      cache := map[];
    }

    /**
     * `get_fields` for `resourceId` at `roundedVersion`: a stored pair is returned as it is;
     * without a version only `_id` is returned and nothing is stored; otherwise the fields
     * are computed from the details, the mapping and the hit counts, and stored.
     */
    method GetFields(resourceId: string, roundedVersion: Option<int>, mapping: Mapping,
                     details: seq<seq<string>>, hits: string -> nat)
      returns (m: Mapping, fields: seq<FieldInfo>)
      requires Valid()
      modifies this
      ensures Valid()
      ensures WellFormedFields(fields)
      ensures (resourceId, roundedVersion) in old(cache) ==>
        (m, fields) == old(cache)[(resourceId, roundedVersion)] && cache == old(cache)
      ensures (resourceId, roundedVersion) !in old(cache) && roundedVersion.None? ==>
        m == mapping && fields == [IdInfo] && cache == old(cache)
      ensures (resourceId, roundedVersion) !in old(cache) && roundedVersion.Some? ==>
        m == mapping && fields == Fields(FieldNames(details, mapping.mappedFields), hits)
        && cache == old(cache)[(resourceId, roundedVersion) := (m, fields)]
    {
      var key := (resourceId, roundedVersion);
      if key in cache {
        m, fields := cache[key].0, cache[key].1;
        return;
      }
      m, fields := mapping, [IdInfo];
      if roundedVersion.None? {
        return;
      }
      var names := CollectFieldNames(details, mapping.mappedFields);
      fields := IncludeFields(names, hits);
      FieldsWellFormed(details, mapping.mappedFields, hits);
      cache := cache[key := (m, fields)];
    }
  }
}
