/**
 * Translation of the datastore_search parameters into a search description
 * (lib/search.py): field prefixing, the free-text query, term filters, paging,
 * the source filter, sorting and facet aggregations.
 */
module Search {
  import opened Wrappers
  import opened Strings
  import opened EsQuery

  /** Every field of a record is stored under this key of the indexed document. */
  const DataPrefix: string := "data."

  /** `prefix_field`: the indexed name of a record field. */
  function PrefixField(field: string): (r: string)
    ensures |r| == |DataPrefix| + |field|
    ensures r[..|DataPrefix|] == DataPrefix && r[|DataPrefix|..] == field
  {
    DataPrefix + field
  }

  /** The free-text `q` parameter: one string, or a dict of field names to search strings. */
  datatype QParam = QText(text: string) | QFields(entries: seq<(string, string)>)

  /** A `filters` value: a single value, or a list of them. */
  datatype FilterValue = Single(value: Scalar) | Many(values: seq<Scalar>)

  /** The validated parameters `build_search_object` reads; `None` is an absent parameter. */
  datatype SearchParams = SearchParams(
    q: Option<QParam>,
    filters: Option<seq<(string, FilterValue)>>,
    offset: Option<int>,
    limit: Option<int>,
    fields: Option<seq<string>>,
    facets: Option<seq<string>>,
    facetLimits: Option<map<string, int>>,
    sort: Option<seq<string>>)

  datatype TermsAgg = TermsAgg(field: string, size: int)

  /**
   * What the elasticsearch-dsl Search object ends up holding: the `query` and `filter`
   * clauses in the order they were added, `from`/`size`, the `_source` filter, the sort
   * keys and the bucket aggregations by name.
   */
  datatype SearchDesc = SearchDesc(
    queries: seq<Query>,
    filters: seq<Query>,
    fromOffset: Option<int>,
    size: Option<int>,
    source: Option<seq<string>>,
    sort: seq<string>,
    aggs: map<string, TermsAgg>)

  const EmptySearch: SearchDesc := SearchDesc([], [], None, None, None, [], map[])

  /** The page size `offset` sets when no `limit` is given. */
  const OffsetPageSize: int := 100
  /** The number of buckets of a facet that has no entry in `facet_limits`. */
  const DefaultFacetSize: int := 10

  /** The field a `q` dict entry searches: `meta.all` for the empty key, else the record field. */
  function QField(key: string): string
  {
    if key == "" then MetaAll else PrefixField(key)
  }

  function Values(v: FilterValue): (vs: seq<Scalar>)
    ensures v.Single? ==> vs == [v.value]
  {
    match v
    case Single(x) => [x]
    case Many(xs) => xs
  }

  /** The term filters for one `filters` entry. */
  function EntryTerms(name: string, v: FilterValue): seq<Query>
  {
    MapSeq((x: Scalar) => TermQuery(PrefixField(name), x), Values(v))
  }

  /** The term filters for the `filters` dict, entry by entry. */
  function FilterTerms(entries: seq<(string, FilterValue)>): seq<Query>
  {
    if entries == [] then []
    else EntryTerms(entries[0].0, entries[0].1) + FilterTerms(entries[1..])
  }

  /** Each value of each entry gives exactly one term filter on the entry's record field. */
  lemma {:induction false} FilterTermsMembers(entries: seq<(string, FilterValue)>, q: Query)
    ensures q in FilterTerms(entries) <==>
      exists i, x :: 0 <= i < |entries| && x in Values(entries[i].1) &&
        q == TermQuery(PrefixField(entries[i].0), x)
  {
    if entries != [] {
      FilterTermsMembers(entries[1..], q);
      var here := EntryTerms(entries[0].0, entries[0].1);
      if q in here {
        var k :| 0 <= k < |here| && here[k] == q;
        assert Values(entries[0].1)[k] in Values(entries[0].1);
      }
      if exists i, x :: 0 <= i < |entries| && x in Values(entries[i].1) &&
          q == TermQuery(PrefixField(entries[i].0), x) {
        var i, x :| 0 <= i < |entries| && x in Values(entries[i].1) &&
          q == TermQuery(PrefixField(entries[i].0), x);
        if i == 0 {
          var k :| 0 <= k < |Values(entries[0].1)| && Values(entries[0].1)[k] == x;
          assert here[k] == q;
        } else {
          assert entries[1..][i - 1] == entries[i];
        }
      } else {
        forall k | 0 <= k < |here| ensures here[k] != q {
          assert Values(entries[0].1)[k] in Values(entries[0].1);
        }
      }
    }
  }

  /** The sort key of a `sort` entry: `<field> desc` sorts descending, anything else ascending. */
  function SortKey(entry: string): string
  {
    if EndsWith(entry, " desc") then "-" + PrefixField(entry[..|entry| - 5])
    else if EndsWith(entry, " asc") then PrefixField(entry[..|entry| - 4])
    else PrefixField(entry)
  }

  /**
   * The source's steps for one sort entry (append ` asc` when no direction is given,
   * prefix, split at the last space, and negate the field for `desc`) compute SortKey.
   */
  lemma SortEntrySteps(entry: string, e: string, field: string, direction: string)
    requires e == if !EndsWith(entry, " desc") && !EndsWith(entry, " asc") then entry + " asc" else entry
    requires ' ' in PrefixField(e)
    requires (field, direction) == RSplitOnce(PrefixField(e), ' ')
    ensures (if direction == "desc" then "-" + field else field) == SortKey(entry)
  {
    var p := PrefixField(e);
    if EndsWith(e, " desc") {
      if entry != e { AscIsNotDesc(entry); }
      SplitAtDirection(entry, " desc");
      assert p[..|p| - 5] == PrefixField(entry[..|entry| - 5]);
    } else {
      SplitAtDirection(e, " asc");
      assert p[..|p| - 4] == PrefixField(e[..|e| - 4]);
      if EndsWith(entry, " asc") {
        assert entry == e;
        assert !EndsWith(entry, " desc") by { assert entry[|entry| - 2] == 's'; }
      } else {
        assert e[..|e| - 4] == entry;
      }
    }
  }

  lemma AscIsNotDesc(x: string)
    ensures !EndsWith(x + " asc", " desc")
  {
    assert (x + " asc")[|x|] == ' ';
  }

  /** Splitting a prefixed entry that ends in ` asc` or ` desc` at its last space isolates the direction. */
  lemma SplitAtDirection(e: string, suffix: string)
    requires suffix == " asc" || suffix == " desc"
    requires EndsWith(e, suffix)
    ensures ' ' in PrefixField(e)
    ensures RSplitOnce(PrefixField(e), ' ') ==
      (PrefixField(e)[..|PrefixField(e)| - |suffix|], suffix[1..])
  {
    var p := PrefixField(e);
    assert p[|p| - |suffix|..] == e[|e| - |suffix|..];
    RSplitAtSuffix(p, suffix);
  }

  /** The `query` clauses `q` adds: one match on meta.all for a string, one match per dict entry. */
  function QueryClauses(q: Option<QParam>): (qs: seq<Query>)
    ensures q.None? || q == Some(QText("")) ==> qs == []
    ensures q.Some? && q.value.QText? && q.value.text != "" ==> qs == [MatchQuery(MetaAll, q.value.text, false)]
    ensures q.Some? && q.value.QFields? ==>
      |qs| == |q.value.entries| &&
      forall i :: 0 <= i < |qs| ==> qs[i] == MatchQuery(QField(q.value.entries[i].0), q.value.entries[i].1, false)
  {
    match q
    case None => []
    case Some(QText(t)) => if t == "" then [] else [MatchQuery(MetaAll, t, false)]
    case Some(QFields(entries)) =>
      MapSeq((e: (string, string)) => MatchQuery(QField(e.0), e.1, false), entries)
  }

  /** The sort keys: `data._id` when `sort` is absent, else one key per entry in order. */
  function SortClause(sort: Option<seq<string>>): (keys: seq<string>)
    ensures sort.None? ==> keys == [PrefixField("_id")]
    ensures sort.Some? ==> |keys| == |sort.value| && forall i :: 0 <= i < |keys| ==> keys[i] == SortKey(sort.value[i])
  {
    if sort.None? then [PrefixField("_id")] else MapSeq(SortKey, sort.value)
  }

  /** The page size: `limit` when given, else 100 when `offset` is given, else the engine default. */
  function PageSize(offset: Option<int>, limit: Option<int>): (size: Option<int>)
    ensures limit.Some? ==> size == limit
    ensures limit.None? && offset.Some? ==> size == Some(OffsetPageSize)
    ensures limit.None? && offset.None? ==> size.None?
  {
    if limit.Some? then limit else if offset.Some? then Some(OffsetPageSize) else None
  }

  /** One terms aggregation per facet, sized by its entry in `limits` or 10. */
  function FacetAggregations(facets: seq<string>, limits: map<string, int>): (aggs: map<string, TermsAgg>)
    ensures aggs.Keys == set f | f in facets
    ensures forall f :: f in aggs ==>
      aggs[f] == TermsAgg(PrefixField(f), if f in limits then limits[f] else DefaultFacetSize)
  {
    map f | f in facets :: TermsAgg(PrefixField(f), if f in limits then limits[f] else DefaultFacetSize)
  }

  function FacetLimits(facetLimits: Option<map<string, int>>): map<string, int>
  {
    if facetLimits.Some? then facetLimits.value else map[]
  }

  /**
   * `build_search_object`: every present parameter adds its part to an empty search,
   * in the source's order.
   */
  method BuildSearchObject(p: SearchParams) returns (s: SearchDesc)
    ensures s.queries == QueryClauses(p.q)
    ensures s.filters == if p.filters.Some? then FilterTerms(p.filters.value) else []
    ensures s.fromOffset == p.offset
    ensures s.size == PageSize(p.offset, p.limit)
    ensures s.source == if p.fields.Some? then Some(MapSeq(PrefixField, p.fields.value)) else None
    ensures s.sort == SortClause(p.sort)
    ensures s.aggs == if p.facets.Some? then FacetAggregations(p.facets.value, FacetLimits(p.facetLimits)) else map[]
  {
    s := EmptySearch;
    s := AddQuery(s, p.q);
    assert [] + QueryClauses(p.q) == QueryClauses(p.q);
    s := AddFilters(s, p.filters);
    assert p.filters.Some? ==> [] + FilterTerms(p.filters.value) == FilterTerms(p.filters.value);
    if p.offset.Some? {
      s := s.(fromOffset := p.offset, size := Some(OffsetPageSize));
    }
    if p.limit.Some? {
      s := s.(size := p.limit);
    }
    if p.fields.Some? {
      s := s.(source := Some(MapSeq(PrefixField, p.fields.value)));
    }
    s := AddSort(s, p.sort);
    s := AddFacets(s, p.facets, p.facetLimits);
    if p.facets.Some? {
      EmptyMerge(FacetAggregations(p.facets.value, FacetLimits(p.facetLimits)));
    }
  }

  lemma EmptyMerge<K, V>(m: map<K, V>)
    ensures map[] + m == m
  {
  }

  /** The `q` step: a non-empty string searches `meta.all`, a dict matches field by field. */
  method AddQuery(s: SearchDesc, q: Option<QParam>) returns (r: SearchDesc)
    ensures r == s.(queries := s.queries + QueryClauses(q))
  {
    r := s;
    if q.Some? && q.value != QText("") {
      match q.value
      case QText(t) =>
        r := r.(queries := r.queries + [MatchQuery(MetaAll, t, false)]);
      case QFields(entries) =>
        var matches := FieldMatches(entries);
        r := r.(queries := r.queries + matches);
    } else {
      assert QueryClauses(q) == [];
      assert s.queries + [] == s.queries;
    }
  }

  /** The `filters` step: one term filter per value, added to the filter clauses. */
  method AddFilters(s: SearchDesc, filters: Option<seq<(string, FilterValue)>>) returns (r: SearchDesc)
    ensures r == if filters.Some? then s.(filters := s.filters + FilterTerms(filters.value)) else s
  {
    r := s;
    if filters.Some? {
      var terms := TermFilters(filters.value);
      r := r.(filters := r.filters + terms);
    }
  }

  /** The `sort` step: the given keys, or `data._id` when no sort is given. */
  method AddSort(s: SearchDesc, sort: Option<seq<string>>) returns (r: SearchDesc)
    ensures r == s.(sort := SortClause(sort))
  {
    if sort.Some? {
      var keys := SortKeys(sort.value);
      r := s.(sort := keys);
    } else {
      r := s.(sort := [PrefixField("_id")]);
    }
  }

  /** The `facets` step: one terms aggregation per facet, limits defaulting to an empty dict. */
  method AddFacets(s: SearchDesc, facets: Option<seq<string>>, facetLimits: Option<map<string, int>>)
    returns (r: SearchDesc)
    ensures r == if facets.Some? then s.(aggs := s.aggs + FacetAggregations(facets.value, FacetLimits(facetLimits))) else s
  {
    r := s;
    if facets.Some? {
      var limits := if facetLimits.Some? then facetLimits.value else map[];
      var aggs := FacetAggs(r.aggs, facets.value, limits);
      r := r.(aggs := aggs);
    }
  }

  /** The loop over a `q` dict: one match query per entry, in iteration order. */
  method FieldMatches(entries: seq<(string, string)>) returns (queries: seq<Query>)
    ensures queries == QueryClauses(Some(QFields(entries)))
  {
    queries := [];
    var i := 0;
    while i < |entries|
      invariant 0 <= i <= |entries|
      invariant |queries| == i
      invariant forall j :: 0 <= j < i ==> queries[j] == MatchQuery(QField(entries[j].0), entries[j].1, false)
    {
      var (key, text) := entries[i];
      var field := if key == "" then MetaAll else PrefixField(key);
      queries := queries + [MatchQuery(field, text, false)];
      i := i + 1;
    }
  }

  /** The loops over the `filters` dict: a non-list value counts as a one-element list. */
  method TermFilters(entries: seq<(string, FilterValue)>) returns (terms: seq<Query>)
    ensures terms == FilterTerms(entries)
  {
    terms := [];
    var i := 0;
    while i < |entries|
      invariant 0 <= i <= |entries|
      invariant terms == FilterTerms(entries[..i])
    {
      var (name, value) := entries[i];
      var values := if value.Single? then [value.value] else value.values;
      var field := PrefixField(name);
      ghost var term := (x: Scalar) => TermQuery(field, x);
      var j := 0;
      while j < |values|
        invariant 0 <= j <= |values|
        invariant terms == FilterTerms(entries[..i]) + MapSeq(term, values[..j])
      {
        MapSeqSnoc(term, values, j);
        terms := terms + [TermQuery(field, values[j])];
        j := j + 1;
      }
      FilterTermsStep(entries, i);
      assert values[..j] == values;
      i := i + 1;
    }
    assert entries[..i] == entries;
  }

  /** The loop over `sort`: one sort key per entry, in order. */
  method SortKeys(entries: seq<string>) returns (sorts: seq<string>)
    ensures sorts == SortClause(Some(entries))
  {
    sorts := [];
    var i := 0;
    while i < |entries|
      invariant 0 <= i <= |entries|
      invariant |sorts| == i
      invariant forall j :: 0 <= j < i ==> sorts[j] == SortKey(entries[j])
    {
      var key := ParseSortEntry(entries[i]);
      sorts := sorts + [key];
      i := i + 1;
    }
  }

  /** One sort entry, by the source's steps. */
  method ParseSortEntry(entry: string) returns (key: string)
    ensures key == SortKey(entry)
  {
    var e := entry;
    if !EndsWith(e, " desc") && !EndsWith(e, " asc") {
      e := e + " asc";
    }
    SplitAtDirection(e, if EndsWith(e, " desc") then " desc" else " asc");
    var (field, direction) := RSplitOnce(PrefixField(e), ' ');
    SortEntrySteps(entry, e, field, direction);
    if direction == "desc" {
      key := "-" + field;
    } else {
      key := field;
    }
  }

  /**
   * The loop over `facets`, which adds one terms aggregation per facet to `search.aggs`
   * in place; `aggs` is the search's aggregations before the loop.
   */
  method FacetAggs(aggs: map<string, TermsAgg>, facets: seq<string>, limits: map<string, int>)
    returns (r: map<string, TermsAgg>)
    ensures r == aggs + FacetAggregations(facets, limits)
  {
    r := aggs;
    var i := 0;
    while i < |facets|
      invariant 0 <= i <= |facets|
      invariant r == aggs + FacetAggregations(facets[..i], limits)
    {
      var facet := facets[i];
      FacetAggsStep(aggs, facets, i, limits);
      r := r[facet := TermsAgg(PrefixField(facet), if facet in limits then limits[facet] else DefaultFacetSize)];
      i := i + 1;
    }
    assert facets[..i] == facets;
  }

  lemma FacetAggsStep(aggs: map<string, TermsAgg>, facets: seq<string>, i: nat, limits: map<string, int>)
    requires i < |facets|
    ensures var facet := facets[i];
      (aggs + FacetAggregations(facets[..i], limits))[facet := TermsAgg(PrefixField(facet), if facet in limits then limits[facet] else DefaultFacetSize)]
      == aggs + FacetAggregations(facets[..i + 1], limits)
  {
    assert facets[..i + 1] == facets[..i] + [facets[i]];
  }

  /** The term filters of one more entry of a prefix. */
  lemma FilterTermsStep(entries: seq<(string, FilterValue)>, i: nat)
    requires i < |entries|
    ensures FilterTerms(entries[..i + 1]) == FilterTerms(entries[..i]) + EntryTerms(entries[i].0, entries[i].1)
  {
    FilterTermsAppend(entries[..i], entries[i].0, entries[i].1);
    assert entries[..i + 1] == entries[..i] + [(entries[i].0, entries[i].1)];
  }

  lemma FilterTermsAppend(entries: seq<(string, FilterValue)>, name: string, v: FilterValue)
    ensures FilterTerms(entries + [(name, v)]) == FilterTerms(entries) + EntryTerms(name, v)
  {
    if entries != [] {
      assert (entries + [(name, v)])[1..] == entries[1..] + [(name, v)];
      FilterTermsAppend(entries[1..], name, v);
    } else {
      assert FilterTerms([(name, v)]) == EntryTerms(name, v) + FilterTerms([]);
    }
  }
}
