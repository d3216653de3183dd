/**
 * The v1.0.0 query document: an optional free-text `search` and an optional tree of
 * `filters`, each node a one-key `{operator: options}` dict. The string-keyed dispatch of
 * the source becomes one constructor per operator.
 */
module QueryDsl {
  import opened Wrappers
  import opened EsQuery

  /** A GeoJSON position, written `[longitude, latitude]` (RFC 7946 section 3.1.1). */
  datatype Position = Position(lon: Num, lat: Num)

  /** A linear ring: the points of one boundary, in order. */
  type Ring = seq<Position>

  /**
   * A GeoJSON Polygon: its first ring is the exterior boundary, any further rings are
   * holes in it (RFC 7946 section 3.1.6).
   */
  datatype Polygon = Polygon(outer: Ring, holes: seq<Ring>)

  /** A group (`and`, `or`, `not`) or a term of the filter tree. */
  datatype Filter =
    | And(members: seq<Filter>)
    | Or(members: seq<Filter>)
    | Not(members: seq<Filter>)
    | StringEquals(fields: seq<string>, value: string)
    | StringContains(fields: seq<string>, value: string)
    | NumberEquals(fields: seq<string>, number: Num)
    | NumberRange(fields: seq<string>, lessThan: Option<Num>, lessThanInclusive: Option<bool>,
                  greaterThan: Option<Num>, greaterThanInclusive: Option<bool>)
    | Exists(fields: seq<string>, geoField: Option<bool>)
    | GeoPoint(latitude: Num, longitude: Num, radius: Option<Num>, radiusUnit: Option<string>)
    | GeoNamedArea(category: string, name: string)
    | GeoCustomArea(coordinates: seq<Polygon>)

  /** A whole query; `None` is a key the document does not have. */
  datatype QueryDocument = QueryDocument(search: Option<string>, filters: Option<Filter>)
}
