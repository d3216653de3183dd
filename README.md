# ckanext-versioned-datastore core, modelled in Dafny

This project models the core of ckanext-versioned-datastore. That CKAN extension stores
each resource's records in Elasticsearch, keeps every version of them, and answers
searches over any version. The model covers these parts:

- **The v1.0.0 query language** (`lib/query/v1_0_0.py`). A query document holds an
  optional free-text `search` and an optional filter tree. The tree has `and`/`or`/`not`
  groups and term nodes: `string_equals`, `string_contains`, `number_equals`,
  `number_range`, `exists`, `geo_point`, `geo_named_area` and `geo_custom_area`. The
  translator (`v1_0_0Schema`) turns the tree into a tree of search-engine queries: bool
  queries for groups, and term, match, range, exists, geo_distance and geo_polygon leaves.
  The hasher (`v1_0_0Hasher`) turns the same document into a canonical string that does
  not depend on member order, and digests that string. `load_geojson` builds the
  name-to-MultiPolygon lookup that backs `geo_named_area`.
- **Search-parameter translation** (`lib/search.py`). This is `prefix_field` and
  `build_search_object`. The datastore_search parameters `q`, `filters`, `offset`,
  `limit`, `fields`, `sort`, `facets` and `facet_limits` become a search description.
- **Ingestion feeders** (`lib/ingestion/feeders.py`). A feeder is an object. It keeps the
  columns it has seen as an ordered set and turns rows into records with ids. The
  request headers and the encoding fallback are also modelled.
- **The `list_of_strings` converter** (`logic/schema.py`).
- **Basic-query helpers** (`lib/basic_query/utils.py`). `format_facets` reshapes facet
  aggregations. `get_fields` orders and selects a resource's fields at a version, and its
  process-wide `field_cache` stores the result.

The search engine's query objects become the datatype `EsQuery.Query`. `EsQuery.Eval`
gives that datatype a reference meaning: which records a query matches, given which leaf
queries match a record. `Translator.Holds` states independently what a filter tree
means. The translator is proved against that statement. `Eval` reads a `should` bool with
no clauses and `minimum_should_match` 1 as matching nothing. That reading of the engine
is an assumption of the model; see "## Left out".

Numbers in query documents are kept as their text: the source only passes them through.
Elasticsearch, the ingestion details store, files, the network and the digest function
are inputs or parameters of the model.

Module layout:

| file | module | role |
|---|---|---|
| wrappers.dfy | Wrappers | `Option`, `Result` |
| strings.dfy | Strings | string order, sorting, `join`/`split`, list helpers |
| es_query.dfy | EsQuery | search-engine query datatype and its meaning |
| query_dsl.dfy | QueryDsl | v1.0.0 query document datatype |
| search.dfy | Search | `prefix_field`, `build_search_object` |
| translator.dfy | Translator | `v1_0_0Schema` translation |
| hasher.dfy | Hasher | `v1_0_0Hasher` |
| geo_regions.dfy | GeoRegions | `load_geojson` merge loop |
| feeders.dfy | Feeders | `DatastoreFeeder` and its subclasses' record numbering |
| schema.dfy | Schema | `list_of_strings` |
| basic_query.dfy | BasicQuery | `format_facets`, `get_fields`, `field_cache` |

Where the code and its documentation disagree, the model follows the code.

- A `geo_named_area` whose category is known but whose name is not does not fail. The
  region table is a `defaultdict(list)`, so the lookup gives no polygons. The result is a
  `should` bool with no clauses and `minimum_should_match` 1, which `EsQuery.Eval` reads as
  matching nothing. Only
  an unknown category fails, as a missing key of the outer table. `Translator.NamedPolygons`
  and `Translator.TranslateFailsExactly` state this.
- `search.py` tests `q is not u''` by identity. The model treats this as equality with the
  empty string.
- A `sort` given as an empty list gives an empty sort. Only an absent `sort` gives the
  default sort on `data._id`.

## Model

| member | source | states |
|---|---|---|
| Search.PrefixField | ckanext/versioned_datastore/lib/search.py:11-21 | the indexed name is exactly `data.` followed by the field name |
| Search.QueryClauses | ckanext/versioned_datastore/lib/search.py:81-90 | an absent or empty `q` adds no query; a non-empty string adds one match on `meta.all` with the default operator; a dict adds one match per entry, on `meta.all` for the empty key and on the prefixed field otherwise |
| Search.FieldMatches | ckanext/versioned_datastore/lib/search.py:84-90 | the loop over a `q` dict yields exactly the clauses of `QueryClauses` |
| Search.Values | ckanext/versioned_datastore/lib/search.py:93-94 | a non-list filter value is read as a one-element list |
| Search.FilterTermsMembers | ckanext/versioned_datastore/lib/search.py:91-98 | a query is among the term filters iff it is a term on the prefixed name of some entry with one of that entry's values |
| Search.TermFilters | ckanext/versioned_datastore/lib/search.py:91-98 | the nested loops over `filters` yield exactly `FilterTerms`, entry by entry and value by value |
| Search.FilterTermsAppend | ckanext/versioned_datastore/lib/search.py:91-98 | one more entry appends exactly its own term filters |
| Search.PageSize | ckanext/versioned_datastore/lib/search.py:99-102 | `limit` wins when given; an `offset` alone sets the page size to 100; neither leaves it unset |
| Search.SortClause | ckanext/versioned_datastore/lib/search.py:105-118 | an absent sort gives `data._id`; otherwise one key per entry, in order |
| Search.SortEntrySteps | ckanext/versioned_datastore/lib/search.py:108-114 | the source's steps (append ` asc` unless a direction is given, prefix, split at the last space, negate for `desc`) give the sort key `SortKey` defines |
| Search.SplitAtDirection | ckanext/versioned_datastore/lib/search.py:110 | splitting a prefixed entry ending in ` asc`/` desc` at its last space isolates the direction |
| Search.AscIsNotDesc | ckanext/versioned_datastore/lib/search.py:108-109 | an entry given the default ` asc` never reads as descending |
| Search.SortKeys | ckanext/versioned_datastore/lib/search.py:106-114 | the sort loop yields exactly `SortClause` |
| Search.ParseSortEntry | ckanext/versioned_datastore/lib/search.py:108-114 | one sort entry, by the source's steps, gives `SortKey` of the entry |
| Search.FacetAggregations | ckanext/versioned_datastore/lib/search.py:119-127 | one terms aggregation per facet name, on the prefixed field, sized by its `facet_limits` entry or 10 |
| Search.FacetAggs | ckanext/versioned_datastore/lib/search.py:121-127 | the facet loop adds exactly `FacetAggregations` to the aggregations so far |
| Search.AddQuery | ckanext/versioned_datastore/lib/search.py:81-90 | the `q` step appends `QueryClauses(q)` and changes nothing else |
| Search.AddFilters | ckanext/versioned_datastore/lib/search.py:91-98 | the `filters` step appends the term filters and changes nothing else |
| Search.AddSort | ckanext/versioned_datastore/lib/search.py:105-118 | the `sort` step sets the sort to `SortClause(sort)` and changes nothing else |
| Search.AddFacets | ckanext/versioned_datastore/lib/search.py:119-127 | the `facets` step adds the aggregations, with `facet_limits` defaulting to an empty dict |
| Search.BuildSearchObject | ckanext/versioned_datastore/lib/search.py:56-128 | every part of the search description is the specified function of the parameters: queries, filters, offset, page size, prefixed source fields, sort and aggregations |
| EsQuery.CountMatchingPositive | ckanext/versioned_datastore/lib/query/v1_0_0.py:289 | a `should` list with `minimum_should_match` 1 matches iff one of its clauses matches |
| Translator.BuildOr | ckanext/versioned_datastore/lib/query/v1_0_0.py:281-289 | one term is returned as it is; any other number becomes a `should` bool with `minimum_should_match` 1 |
| Translator.BuildOrMeaning | ckanext/versioned_datastore/lib/query/v1_0_0.py:281-289 | the result of `build_or` matches iff one of the terms matches, including the empty list, which `Eval` reads as matching nothing |
| Translator.GeoPolygon | ckanext/versioned_datastore/lib/query/v1_0_0.py:292-305 | a geo_polygon on `meta.geo` with one point per position, in order, latitude from the second and longitude from the first coordinate |
| Translator.PolygonQuery | ckanext/versioned_datastore/lib/query/v1_0_0.py:326-334 | a polygon without holes is its outer ring's query; with holes it filters on the outer ring and excludes every hole |
| Translator.PolygonQueryMeaning | ckanext/versioned_datastore/lib/query/v1_0_0.py:326-334 | a point matches a polygon's query iff it is in the outer ring and in no hole |
| Translator.MultipolygonQueryMeaning | ckanext/versioned_datastore/lib/query/v1_0_0.py:308-336 | a point matches a MultiPolygon's query iff it is in one of its polygons |
| Translator.BuildMultipolygonQuery | ckanext/versioned_datastore/lib/query/v1_0_0.py:308-336 | the loop over the polygons builds exactly `MultipolygonQuery` |
| Translator.RangeBounds | ckanext/versioned_datastore/lib/query/v1_0_0.py:201-209 | `lte`/`lt` is present iff `less_than` is given, by `less_than_inclusive` (default true); `gte`/`gt` likewise; each holds its bound and no other key appears |
| Translator.CreateRangeBounds | ckanext/versioned_datastore/lib/query/v1_0_0.py:201-209 | the dict-filling steps build exactly `RangeBounds` |
| Translator.Distance | ckanext/versioned_datastore/lib/query/v1_0_0.py:242-243 | the distance is the radius (default `0`) followed by its unit (default `m`), in each of the four cases of a given or absent radius and unit |
| Translator.NamedPolygons | ckanext/versioned_datastore/lib/query/v1_0_0.py:266 | a name missing from a category's table gives no polygons; a present one gives its MultiPolygon |
| Translator.TranslateMembers | ckanext/versioned_datastore/lib/query/v1_0_0.py:118-143 | a group's members translate iff each does, one query per member in order; a failure is some member's failure |
| Translator.GroupShapes | ckanext/versioned_datastore/lib/query/v1_0_0.py:106-143 | `and` with one member is that member and otherwise a `filter` bool; `or` goes through `build_or`; `not` is always a `must_not` bool |
| Translator.SingleMemberUnwrapped | ckanext/versioned_datastore/lib/query/v1_0_0.py:119 | a one-member `and` or `or` translates to its member alone, and a one-member `not` to a bool around it |
| Translator.TermShapes | ckanext/versioned_datastore/lib/query/v1_0_0.py:145-175 | `string_equals` on one field is a term on `data.<f>`; `string_contains` is an `and` match on `data.<f>.full`, or on `meta.all` without fields |
| Translator.NumberTermShapes | ckanext/versioned_datastore/lib/query/v1_0_0.py:177-212 | `number_equals` and `number_range` on one field are a term and a range on `data.<f>.number` |
| Translator.ExistsTermShapes | ckanext/versioned_datastore/lib/query/v1_0_0.py:214-229 | `exists` on one field is an exists query on `data.<f>`; with `geo_field` it is exists on `meta.geo` whatever the fields |
| Translator.TranslateFailsExactly | ckanext/versioned_datastore/lib/query/v1_0_0.py:94-278 | translation fails iff some `geo_named_area` in the tree names a category with no region table |
| Translator.MembersFailExactly | ckanext/versioned_datastore/lib/query/v1_0_0.py:118-143 | a group's members translate iff every member's categories are known |
| Translator.FieldsDisjunction | ckanext/versioned_datastore/lib/query/v1_0_0.py:155-229 | a multi-field term matches iff its leaf matches on one of the fields |
| Translator.TranslateMeaning | ckanext/versioned_datastore/lib/query/v1_0_0.py:94-278 | a translated tree matches a record iff the filter tree holds for it: `and` all, `or` some, `not` none, terms on some field |
| Translator.MembersMeaning | ckanext/versioned_datastore/lib/query/v1_0_0.py:118-143 | each translated member matches iff the member holds |
| Translator.AndMeaning | ckanext/versioned_datastore/lib/query/v1_0_0.py:106-119 | an `and` group matches iff all members hold |
| Translator.OrMeaning | ckanext/versioned_datastore/lib/query/v1_0_0.py:121-133 | an `or` group matches iff some member holds |
| Translator.NotMeaning | ckanext/versioned_datastore/lib/query/v1_0_0.py:135-143 | a `not` group matches iff no member holds |
| Translator.TermMeaning | ckanext/versioned_datastore/lib/query/v1_0_0.py:145-278 | each term's query matches iff the term holds |
| Translator.TranslateDocument | ckanext/versioned_datastore/lib/query/v1_0_0.py:52-92 | the search text adds an `and` match on `meta.all`, then the filters add their translation; only the filters can fail, exactly when their translation fails |
| Translator.DocumentMeaning | ckanext/versioned_datastore/lib/query/v1_0_0.py:52-92 | a translated document's queries require the search text to match and the filter tree to hold |
| Hasher.GroupStringOrderFree | ckanext/versioned_datastore/lib/query/v1_0_0.py:409-410 | a group string depends only on the multiset of member strings |
| Hasher.FieldListOrderFree | ckanext/versioned_datastore/lib/query/v1_0_0.py:454-524 | a term's field list string does not depend on field order |
| Hasher.BoundString | ckanext/versioned_datastore/lib/query/v1_0_0.py:496-507 | an absent bound adds nothing; an inclusive one (the default) adds `<op>=<n>`, an exclusive one `<op><n>` |
| Hasher.AppendBound | ckanext/versioned_datastore/lib/query/v1_0_0.py:496-507 | one bound step appends exactly `BoundString` |
| Hasher.CreateNumberRange | ckanext/versioned_datastore/lib/query/v1_0_0.py:482-509 | the `number_range` string steps build exactly `NumberRangeString` |
| Hasher.RangeStringAgreesWithTranslator | ckanext/versioned_datastore/lib/query/v1_0_0.py:490-509 | the hasher writes `lte`/`lt`/`gte`/`gt` exactly when the translator's range has that key |
| Hasher.PolygonString | ckanext/versioned_datastore/lib/query/v1_0_0.py:555-571 | a polygon's string is its outer ring's, followed by the sorted hole strings when it has holes |
| Hasher.CreateGeoCustomArea | ckanext/versioned_datastore/lib/query/v1_0_0.py:547-571 | the polygon loop builds exactly `CustomAreaString` |
| Hasher.HolesOrderFree | ckanext/versioned_datastore/lib/query/v1_0_0.py:563-568 | a polygon's string does not depend on the order of its holes |
| Hasher.RingStringAgreesWithTranslator | ckanext/versioned_datastore/lib/query/v1_0_0.py:574-582 | a ring's string lists the translator's geo_polygon points, in order |
| Hasher.RingStringStartsWithFirstPoint | ckanext/versioned_datastore/lib/query/v1_0_0.py:574-582 | a non-empty ring's string is its first point's `[lat,lon]` string, then `,` and the rest of the ring's string when there is more; so it opens with `[` and the first latitude |
| Hasher.CustomAreaOpening | ckanext/versioned_datastore/lib/query/v1_0_0.py:547-571 | the `geo_custom_area` string of one polygon is `geo_custom_area:` and the polygon's string, which opens with `[` and the outer ring's first latitude |
| Hasher.RingOrderMatters | ckanext/versioned_datastore/lib/query/v1_0_0.py:574-582 | some reorderings of a ring change the hash: swapping the first two points of a polygon's outer ring changes the `geo_custom_area` string whenever their latitudes differ |
| Hasher.PointStringPrefixUnique | ckanext/versioned_datastore/lib/query/v1_0_0.py:582 | a point's `[lat,lon]` string followed by any text fixes both the point and the text, when the coordinates hold no `,`, `[` or `]` |
| Hasher.RingStringEmpty | ckanext/versioned_datastore/lib/query/v1_0_0.py:574-582 | only the empty ring gives the empty string |
| Hasher.RingStringInjective | ckanext/versioned_datastore/lib/query/v1_0_0.py:574-582 | the points are not sorted, so the ring string keeps them all in order: two rings with the same string are the same ring, given coordinates without `,`, `[` or `]` (as a number's rendering is) |
| Hasher.OnePolygonHash | ckanext/versioned_datastore/lib/query/v1_0_0.py:555-571 | a one-polygon `geo_custom_area` string is `geo_custom_area:`, the outer ring's string, then `/` and the sorted hole strings when there are holes |
| Hasher.OuterRingDeterminesHash | ckanext/versioned_datastore/lib/query/v1_0_0.py:555-582 | two different outer rings over the same holes give different `geo_custom_area` strings: any reordering, reversal, moved or dropped point changes the hash |
| Hasher.RingReversalMatters | ckanext/versioned_datastore/lib/query/v1_0_0.py:574-582 | reversing the outer ring's point order changes the hash unless the ring reads the same both ways; this holds for closed GeoJSON rings too, whose first point survives reversal |
| Hasher.ClosedRingReversed | ckanext/versioned_datastore/lib/query/v1_0_0.py:574-582 | a closed square ring (first point equal to the last) differs from its reversal, so the reversal lemma applies to real closed rings |
| Hasher.HashMembers | ckanext/versioned_datastore/lib/query/v1_0_0.py:409-443 | one string per member, in order, each the member's hash string |
| Hasher.GroupDependsOnMemberStrings | ckanext/versioned_datastore/lib/query/v1_0_0.py:412-443 | groups whose members' strings agree as multisets hash alike |
| Hasher.GroupOrderFree | ckanext/versioned_datastore/lib/query/v1_0_0.py:412-443 | reordering a group's members does not change its hash string |
| Hasher.FieldsOrderFree | ckanext/versioned_datastore/lib/query/v1_0_0.py:446-524 | reordering a term's fields does not change its hash string |
| Hasher.GroupOrderKeepsMeaning | ckanext/versioned_datastore/lib/query/v1_0_0.py:106-143 | reordering a group's members does not change what it matches, so equal hashes for reorderings are sound |
| Hasher.Preimage | ckanext/versioned_datastore/lib/query/v1_0_0.py:394-399 | the digest input is empty for an empty document, starts with `search:<text>` when there is a search, ends with `filters:<hash string>` when there are filters, and its length is the sum of those two parts |
| Hasher.HashQueryStream | ckanext/versioned_datastore/lib/query/v1_0_0.py:387-399 | feeding the two parts to one digest yields the digest of `Preimage` |
| Hasher.HashQueryGroupOrderFree | ckanext/versioned_datastore/lib/query/v1_0_0.py:387-443 | documents differing only in the member order of the top group hash alike |
| Hasher.SearchAbsorbsFilters | ckanext/versioned_datastore/lib/query/v1_0_0.py:394-398 | any search text ending in `filters:` and a filter's string feeds the digest the same string as the shorter text together with that filter |
| Hasher.PreimageDoesNotSeparateParts | ckanext/versioned_datastore/lib/query/v1_0_0.py:396-399 | a search `xfilters:geo_exists` alone and a search `x` with a `geo_exists` filter feed the digest the same text, yet translate differently |
| GeoRegions.FirstValue | ckanext/versioned_datastore/lib/query/v1_0_0.py:363-364 | no name iff no name key has a value; otherwise the value of the first key that has one |
| GeoRegions.Polygons | ckanext/versioned_datastore/lib/query/v1_0_0.py:366-369 | a Polygon geometry is wrapped into a one-polygon MultiPolygon; a MultiPolygon is kept |
| GeoRegions.LoadGeojson | ckanext/versioned_datastore/lib/query/v1_0_0.py:360-379 | the nested merge loops compute exactly `Load` |
| GeoRegions.LoadStopsAtFirstNameless | ckanext/versioned_datastore/lib/query/v1_0_0.py:363-364 | loading fails as soon as a feature has no name |
| GeoRegions.LoadFailsExactly | ckanext/versioned_datastore/lib/query/v1_0_0.py:361-364 | loading fails iff some feature has no name |
| GeoRegions.AddPolygonStep | ckanext/versioned_datastore/lib/query/v1_0_0.py:376-377 | adding a polygon keeps every MultiPolygon non-empty and free of duplicates, adds it once, and touches no other name |
| GeoRegions.AddPolygonsStep | ckanext/versioned_datastore/lib/query/v1_0_0.py:374-377 | adding a feature's polygons keeps the lookup well formed, adds only its name, and only appends to that name's list |
| GeoRegions.AddPolygonsMember | ckanext/versioned_datastore/lib/query/v1_0_0.py:374-377 | after adding, a polygon is listed under a name iff it was already or it was added under that name |
| GeoRegions.ListedExtend | ckanext/versioned_datastore/lib/query/v1_0_0.py:361-377 | a polygon is listed for a name after one more feature iff it was before, or that feature has the name and the polygon |
| GeoRegions.LoadContents | ckanext/versioned_datastore/lib/query/v1_0_0.py:360-379 | a loaded lookup is well formed, and a polygon is under a name iff some feature of that name has it |
| GeoRegions.LoadOnlyAppends | ckanext/versioned_datastore/lib/query/v1_0_0.py:371-377 | each name's MultiPolygon after a prefix of the features is a prefix of its final MultiPolygon: merging only appends |
| Feeders.UnseenProperties | ckanext/versioned_datastore/lib/ingestion/feeders.py:53-56 | the appended columns are distinct, and are exactly the offered columns that are neither `_id` nor seen |
| Feeders.UnseenOfSeen | ckanext/versioned_datastore/lib/ingestion/feeders.py:53-56 | offering only seen columns or `_id` appends nothing |
| Feeders.UnseenAppend | ckanext/versioned_datastore/lib/ingestion/feeders.py:53-56 | offering two lists in turn appends what offering their concatenation does |
| Feeders.DatastoreFeeder.constructor | ckanext/versioned_datastore/lib/ingestion/feeders.py:34-45 | a new feeder has seen no column |
| Feeders.DatastoreFeeder.UpdateColumns | ckanext/versioned_datastore/lib/ingestion/feeders.py:47-56 | the new columns are appended in first-seen order, the set grows by the offered non-`_id` columns, and the list stays duplicate-free with the same elements as the set |
| Feeders.MakeRecord | ckanext/versioned_datastore/lib/ingestion/feeders.py:72-74 | without `_id` the id is `id_offset + number` and the data is the row; with `_id` the record exists iff `int` accepts that value, and its id is `int` of it, otherwise the failure is that of `int`; the data never holds `_id` |
| Feeders.Truncate | ckanext/versioned_datastore/lib/ingestion/feeders.py:72 | `int` of a float truncates toward zero: the result has the float's sign and is within 1 of it, no further from zero |
| Feeders.TruncateTowardZero | ckanext/versioned_datastore/lib/ingestion/feeders.py:72 | truncation is symmetric about zero, and a float holding an integer gives that integer |
| Feeders.ParseIntString | ckanext/versioned_datastore/lib/ingestion/feeders.py:72 | `int` reads back every integer written in decimal |
| Feeders.IdFromText | ckanext/versioned_datastore/lib/ingestion/feeders.py:72 | a row whose `_id` is the decimal text of an integer gets that integer as its id |
| Feeders.DatastoreFeeder.CreateRecord | ckanext/versioned_datastore/lib/ingestion/feeders.py:58-74 | the row's keys, `_id` included, are offered as columns before `_id` is dropped; the record is `MakeRecord` |
| Feeders.DatastoreFeeder.Records | ckanext/versioned_datastore/lib/ingestion/feeders.py:135-142 | rows are numbered from 1 in order, one record each, up to the first failing row, whose keys are still registered |
| Feeders.DatastoreFeeder.SvRecords | ckanext/versioned_datastore/lib/ingestion/feeders.py:214-222 | the header's columns are registered first, in header order, then the rows are numbered from 1 up to the first failing row, which is identified; the final columns are those unseen among the header followed by the keys of the rows read |
| Feeders.Headers | ckanext/versioned_datastore/lib/ingestion/feeders.py:96-104 | `Authorization` carries the API key iff the URL is an upload and the key is non-empty; otherwise no header |
| Feeders.ReadEncoding | ckanext/versioned_datastore/lib/ingestion/feeders.py:195-201 | no detection or ASCII gives `utf-8`; any other detected encoding is kept |
| Schema.ListOfStrings | ckanext/versioned_datastore/logic/schema.py:14-30 | a list is returned unchanged; a string is split into strings, failing only for an empty delimiter; anything else is invalid |
| Schema.ListOfStringsJoin | ckanext/versioned_datastore/logic/schema.py:27-28 | joining the pieces with the delimiter gives back the string |
| Schema.ListOfStringsSingle | ckanext/versioned_datastore/logic/schema.py:27-28 | a string without the delimiter becomes a one-item list of itself |
| Schema.SplitWithoutSeparator | ckanext/versioned_datastore/logic/schema.py:28 | splitting a string that does not contain the separator gives the string alone |
| Schema.SplitPiecesFree | ckanext/versioned_datastore/logic/schema.py:28 | no piece of a split contains the separator: the string is cut at every occurrence |
| Schema.ListOfStringsCutsAtDelimiter | ckanext/versioned_datastore/logic/schema.py:27-28 | the strings a string value converts to never contain the delimiter |
| Schema.ListOfStringsOfJoin | ckanext/versioned_datastore/logic/schema.py:27-28 | with a one-character delimiter such as the default `,`, a non-empty list of pieces free of it, joined with it, converts back to that list |
| Schema.ListOfStringsIdempotent | ckanext/versioned_datastore/logic/schema.py:25-28 | converting a converted value again changes nothing |
| BasicQuery.BucketValues | ckanext/versioned_datastore/lib/basic_query/utils.py:68-69 | the values map has exactly one key per distinct bucket key |
| BasicQuery.BucketValuesLastWins | ckanext/versioned_datastore/lib/basic_query/utils.py:68-69 | each key maps to the count of its last bucket |
| BasicQuery.FormatFacet | ckanext/versioned_datastore/lib/basic_query/utils.py:62-70 | a facet's details copy the two counts, and its values cover the bucket keys |
| BasicQuery.FormatFacets | ckanext/versioned_datastore/lib/basic_query/utils.py:61-72 | exactly one formatted facet per aggregation, under the same name |
| BasicQuery.NotIn | ckanext/versioned_datastore/lib/basic_query/utils.py:142 | the filtered columns are exactly those not yet seen, and stay duplicate-free |
| BasicQuery.DetailsNamesMembers | ckanext/versioned_datastore/lib/basic_query/utils.py:134-144 | a name comes from the details iff some version has it and it was not seen |
| BasicQuery.DetailsNamesNoDup | ckanext/versioned_datastore/lib/basic_query/utils.py:134-144 | given duplicate-free columns per version, the details give each name once |
| BasicQuery.FieldNamesExcludeId | ckanext/versioned_datastore/lib/basic_query/utils.py:134 | `_id` is never among the field names |
| BasicQuery.FieldNamesMembers | ckanext/versioned_datastore/lib/basic_query/utils.py:134-149 | the field names are exactly the columns of any version and the mapped fields, except `_id` |
| BasicQuery.FieldNamesNoDup | ckanext/versioned_datastore/lib/basic_query/utils.py:134-149 | given duplicate-free columns per version, each field name is listed once |
| BasicQuery.NotInCount | ckanext/versioned_datastore/lib/basic_query/utils.py:142 | filtering against the names already seen keeps every copy of an unseen name and drops every copy of a seen one |
| BasicQuery.RepeatedColumnListedTwice | ckanext/versioned_datastore/lib/basic_query/utils.py:141-149 | for every input, a name of the newest version other than `_id` is listed exactly as many times as that version's columns repeat it, because the filter only checks earlier versions; so a repeated column is listed twice |
| BasicQuery.NewestVersionFirst | ckanext/versioned_datastore/lib/basic_query/utils.py:141-143 | the newest version's columns come first, in their source order |
| BasicQuery.MappedFieldsSortedLast | ckanext/versioned_datastore/lib/basic_query/utils.py:149 | unlisted mapped fields come after the details' names, in sorted order |
| BasicQuery.FieldNamesMappingOrderFree | ckanext/versioned_datastore/lib/basic_query/utils.py:149 | the field names do not depend on the order of the mapping's fields |
| BasicQuery.CollectFieldNames | ckanext/versioned_datastore/lib/basic_query/utils.py:134-149 | the loops over the details and the mapping compute exactly `FieldNames` |
| BasicQuery.Included | ckanext/versioned_datastore/lib/basic_query/utils.py:163-170 | only names with at least one document are included, each as a string field |
| BasicQuery.IncludedComplete | ckanext/versioned_datastore/lib/basic_query/utils.py:163-170 | every name with a document is included |
| BasicQuery.FieldsWellFormed | ckanext/versioned_datastore/lib/basic_query/utils.py:120-170 | the field list starts with `_id` as an integer, and every other entry is a string field other than `_id` |
| BasicQuery.IncludeFields | ckanext/versioned_datastore/lib/basic_query/utils.py:120-170 | the response loop builds exactly `Fields` |
| BasicQuery.FieldCache.constructor | ckanext/versioned_datastore/lib/basic_query/utils.py:80 | the cache starts empty |
| BasicQuery.FieldCache.GetFields | ckanext/versioned_datastore/lib/basic_query/utils.py:109-175 | a cached key returns the stored pair and changes nothing; without a rounded version only `_id` is returned and nothing is stored; otherwise the computed fields are returned and stored under the key; every result starts with `_id` |

## Left out

- SHA-1 is the `digest` parameter of `Hasher.HashQuery`. The model states what is digested, not the digest itself.
- `string.capwords` is the `capwords` parameter of `GeoRegions.Load`.
- Python 2 `unicode`/`str` formatting is not modelled. Numbers are their text, and the hasher's `repr` of hole lists is modelled without escaping.
- Hasher.HashQuery: Python 2's `sha1().update` encodes a `unicode` argument as ASCII, so a search text or filter string with a non-ASCII character makes `hash_query` raise. The model's `HashQuery` is total and does not have that error path.
- EsQuery.Eval: a `should` bool with no clauses and `minimum_should_match` 1 is read as matching nothing. This is an assumption about the engine, not something the source states. elasticsearch-dsl leaves empty clause lists out when it serialises a query, and the engine may read a bool with no clauses as matching every record. Under that reading, an empty `or` group, an empty `fields` list and a known category with an unknown region name would match every record. `Translator.TranslateMeaning` and `Translator.BuildOrMeaning` hold under the model's reading only.
- JSON-schema validation of query documents (`v1_0_0Schema.validate`) is not modelled. Documents are assumed well formed, which the datatypes enforce.
- Reading the region files and query schemas from disk, and JSON parsing, are not modelled. The region table is a parameter of `Translator.Translate`.
- GeoRegions.Polygons: a geometry of a type other than `Polygon` is read as a MultiPolygon, as in the source. Other GeoJSON types are not represented.
- GeoRegions.Load: the merge loop's lookup of a name in the `defaultdict` is modelled without the insertion of an empty list, since every name it looks up then gets a polygon appended.
- Translator.NamedPolygons: the translator's read `self.geojson[category][name]` inserts an empty list into the process-wide region table for every unknown name, a write after loading. The model reads the table without changing it. Later lookups give the same empty list either way; the growth of the table is not modelled.
- elasticsearch-dsl objects are replaced by the `EsQuery.Query` datatype. The search object's chaining and copying are not modelled.
- `create_search` (plugin hooks, `deepcopy` of the data dict), `run_search` and `MultiSearch` are not modelled. Their results enter as inputs: the mapping, the ingestion details and the per-field hit counts.
- Network and spreadsheet I/O of the feeders is not modelled: `requests`, `UniversalDetector`, `csv.DictReader`, `xlrd`/`openpyxl` and temporary files. The rows, the header and the detected encoding are inputs.
- The XLS and XLSX readers' cell conversion is not modelled. Their results enter as cells: an integral XLS `_id` number as `Int`, any other XLS cell as `Text`, and a numeric XLSX `_id` as `Int` or `Float`. Python's `int` of an infinite or NaN float raises; these have no `real` counterpart and are not modelled.
- Feeders.DatastoreFeeder.CreateRecord: `data.pop` removes `_id` from the caller's own dict, so the API feeder's stored rows lose their `_id`. The model leaves the row value unchanged and returns the data without `_id`.
- Feeders.ParseInt accepts an optional sign and ASCII decimal digits only. Python 2's `int` of a `unicode` string also accepts surrounding whitespace and non-ASCII Unicode decimal digits.
- Feeders.DatastoreFeeder.Records: the source yields records lazily. The model returns those yielded before the first failure, together with the failure.
- Lines 14-64 of `logic/schema.py`, apart from `list_of_strings`, are literal schema dicts and are not modelled.
- `action.py`, `downloads.py` and the other parts of the extension are not part of this model.
