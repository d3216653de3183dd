/**
 * The ingestion feeders (lib/ingestion/feeders.py): a feeder turns the rows of a source
 * into datastore records, keeping the columns it has seen as an ordered set and giving
 * each record an id. Downloading, encoding detection and spreadsheet or CSV parsing are
 * left out: the rows, the header and the detected encoding are given as data.
 */
module Feeders {
  import opened Wrappers
  import opened Strings

  /** The id column, which is never registered as a data column. */
  const IdColumn: string := "_id"

  // ---------------------------------------------------------------------------
  // Columns

  /**
   * The columns `update_columns` appends, in order: each column of `cols` that is not
   * `_id`, not in `seen` and not earlier in `cols`.
   */
  function Unseen(cols: seq<string>, seen: set<string>): seq<string>
  {
    if cols == [] then []
    else if cols[0] != IdColumn && cols[0] !in seen then [cols[0]] + Unseen(cols[1..], seen + {cols[0]})
    else Unseen(cols[1..], seen)
  }

  /** The appended columns are new, distinct, not `_id`, and exactly the unseen columns offered. */
  lemma {:induction false} UnseenProperties(cols: seq<string>, seen: set<string>)
    ensures NoDup(Unseen(cols, seen))
    ensures forall c :: c in Unseen(cols, seen) <==> c in cols && c != IdColumn && c !in seen
    decreases |cols|
  {
    if cols != [] {
      var c := cols[0];
      if c != IdColumn && c !in seen {
        UnseenProperties(cols[1..], seen + {c});
        assert forall x :: x in cols <==> x == c || x in cols[1..];
      } else {
        UnseenProperties(cols[1..], seen);
        assert forall x :: x in cols <==> x == c || x in cols[1..];
      }
    }
  }

  /** Offering columns that are all seen (or `_id`) appends nothing. */
  lemma {:induction false} UnseenOfSeen(cols: seq<string>, seen: set<string>)
    requires forall c :: c in cols ==> c == IdColumn || c in seen
    ensures Unseen(cols, seen) == []
    decreases |cols|
  {
    if cols != [] {
      UnseenOfSeen(cols[1..], seen);
    }
  }

  /** Offering two lists one after the other appends what offering their concatenation does. */
  lemma {:induction false} UnseenAppend(a: seq<string>, b: seq<string>, seen: set<string>)
    ensures Unseen(a + b, seen) == Unseen(a, seen) + Unseen(b, seen + Registered(a))
    decreases |a|
  {
    if a == [] {
      assert a + b == b;
      assert Registered(a) == {};
      assert seen + {} == seen;
    } else {
      var c := a[0];
      assert (a + b)[0] == c && (a + b)[1..] == a[1..] + b;
      if c != IdColumn && c !in seen {
        UnseenAppend(a[1..], b, seen + {c});
        assert seen + {c} + Registered(a[1..]) == seen + Registered(a);
      } else {
        UnseenAppend(a[1..], b, seen);
        assert seen + Registered(a[1..]) == seen + Registered(a);
      }
    }
  }

  /** The columns a list of keys registers: all of them but `_id`. */
  function Registered(cols: seq<string>): set<string>
  {
    set c | c in cols && c != IdColumn
  }

  // ---------------------------------------------------------------------------
  // Rows and ids

  /**
   * A cell of a row: text (CSV, and spreadsheet cells turned into text), an integer or a
   * float (JSON numbers, and a numeric spreadsheet `_id` cell), a boolean (JSON), or any
   * other value.
   */
  datatype Cell = Text(text: string) | Int(i: int) | Float(r: real) | Bool(b: bool) | Other

  /** A row as a dict: its keys in iteration order, and their cells. */
  datatype Row = Row(keys: seq<string>, cells: map<string, Cell>)

  /** The record `create_record` makes: the `_id` column is not part of its data. */
  datatype DatastoreRecord = DatastoreRecord(version: int, id: int, data: map<string, Cell>, resourceId: string)

  /** The failure of `int(...)` on the row's `_id`. */
  datatype FeedError = InvalidId(cell: Cell)

  predicate IsDigit(c: char) { '0' <= c <= '9' }

  predicate AllDigits(s: string)
  {
    forall i :: 0 <= i < |s| ==> IsDigit(s[i])
  }

  /** The value of a string of decimal digits. */
  function DigitsValue(s: string): nat
    requires AllDigits(s)
  {
    if s == [] then 0 else assert IsDigit(s[|s| - 1]); 10 * DigitsValue(s[..|s| - 1]) + (s[|s| - 1] as int - '0' as int)
  }

  /** `int(s)` of a string: an optional sign then at least one decimal digit. */
  function ParseInt(s: string): Result<int, FeedError>
  {
    var signed := s != [] && (s[0] == '-' || s[0] == '+');
    var digits := if signed then s[1..] else s;
    if digits == [] || !AllDigits(digits) then Err(InvalidId(Text(s)))
    else if signed && s[0] == '-' then Ok(-(DigitsValue(digits) as int))
    else Ok(DigitsValue(digits))
  }

  /** The decimal digits of `n`, without leading zeros. */
  function DecimalDigits(n: nat): (s: string)
    ensures s != [] && AllDigits(s)
  {
    if n < 10 then [('0' as int + n) as char]
    else DecimalDigits(n / 10) + [('0' as int + n % 10) as char]
  }

  /** Python's `str(i)`. */
  function IntString(i: int): string
  {
    if i < 0 then "-" + DecimalDigits(-i) else DecimalDigits(i)
  }

  lemma {:induction false} DigitsRoundTrip(n: nat)
    ensures DigitsValue(DecimalDigits(n)) == n
  {
    if n >= 10 {
      DigitsRoundTrip(n / 10);
      var s := DecimalDigits(n);
      assert s[..|s| - 1] == DecimalDigits(n / 10);
    }
  }

  /** `int` reads back every integer `str` writes. */
  lemma ParseIntString(i: int)
    ensures ParseInt(IntString(i)) == Ok(i)
  {
    if i < 0 {
      var d := DecimalDigits(-i);
      DigitsRoundTrip(-i);
      assert ("-" + d)[0] == '-';
      assert ("-" + d)[1..] == d;
    } else {
      var d := DecimalDigits(i);
      DigitsRoundTrip(i);
      assert IsDigit(d[0]);
    }
  }

  /** `int(...)` of a cell: integers as they are, text parsed, floats truncated, booleans 0 or 1, anything else a failure. */
  function CellInt(c: Cell): Result<int, FeedError>
  {
    match c
    case Int(i) => Ok(i)
    case Text(s) => ParseInt(s)
    case Float(r) => Ok(Truncate(r))
    case Bool(b) => Ok(if b then 1 else 0)
    case Other => Err(InvalidId(c))
  }

  /** `int` of a float: the float truncated toward zero. */
  function Truncate(r: real): (n: int)
    ensures r >= 0.0 ==> 0 <= n && n as real <= r < n as real + 1.0
    ensures r < 0.0 ==> n <= 0 && n as real - 1.0 < r <= n as real
  {
    if r >= 0.0 then r.Floor else -((-r).Floor)
  }

  /** Truncation is symmetric about zero, and a float holding an integer gives that integer. */
  lemma TruncateTowardZero(r: real, n: int)
    ensures Truncate(-r) == -Truncate(r)
    ensures CellInt(Float(n as real)) == Ok(n)
  {
  }

  /**
   * The record for row `number`: the id from the row's `_id` when it has one, else
   * `id_offset + number`; the data is the row without `_id`.
   */
  function MakeRecord(version: int, resourceId: string, idOffset: int, number: int, row: Row)
    : (r: Result<DatastoreRecord, FeedError>)
    ensures IdColumn !in row.cells ==> r == Ok(DatastoreRecord(version, idOffset + number, row.cells, resourceId))
    ensures IdColumn in row.cells ==> r.Ok? == CellInt(row.cells[IdColumn]).Ok?
    ensures IdColumn in row.cells && r.Ok? ==> r.value.id == CellInt(row.cells[IdColumn]).value
    ensures IdColumn in row.cells && r.Err? ==> r == Err(CellInt(row.cells[IdColumn]).error)
    ensures r.Ok? ==> (r.value.data.Keys == row.cells.Keys - {IdColumn}
      && forall k :: k in r.value.data ==> r.value.data[k] == row.cells[k])
  {
    var data := row.cells - {IdColumn};
    assert IdColumn !in row.cells ==> data == row.cells;
    var id :- if IdColumn in row.cells then CellInt(row.cells[IdColumn]) else Ok(idOffset + number);
    Ok(DatastoreRecord(version, id, data, resourceId))
  }

  /** A row whose `_id` is the text of an integer gets that integer as its id. */
  lemma IdFromText(version: int, resourceId: string, idOffset: int, number: int, row: Row, id: int)
    requires IdColumn in row.cells && row.cells[IdColumn] == Text(IntString(id))
    ensures MakeRecord(version, resourceId, idOffset, number, row).Ok?
    ensures MakeRecord(version, resourceId, idOffset, number, row).value.id == id
  {
    ParseIntString(id);
  }

  // ---------------------------------------------------------------------------
  // The feeder

  /** `DatastoreFeeder`: the columns seen so far, as a set and in first-seen order. */
  class DatastoreFeeder {
    const version: int
    const resourceId: string
    const idOffset: int
    var allColumns: set<string>
    var columns: seq<string>

    /** `columns` lists each column of `all_columns` once, and `_id` is in neither. */
    ghost predicate Valid()
      reads this
    {
      NoDup(columns) && (forall c :: c in columns <==> c in allColumns) && IdColumn !in allColumns
    }

    constructor(version: int, resourceId: string, idOffset: int)
      ensures Valid()
      ensures this.version == version && this.resourceId == resourceId && this.idOffset == idOffset
      ensures allColumns == {} && columns == []
    {
      this.version := version;
      this.resourceId := resourceId;
      this.idOffset := idOffset;
      allColumns := {};
      columns := [];
    }

    /** `update_columns`: each new column other than `_id` is added to the set and appended to the list. */
    method UpdateColumns(cols: seq<string>)
      requires Valid()
      modifies this
      ensures Valid()
      ensures columns == old(columns) + Unseen(cols, old(allColumns))
      ensures allColumns == old(allColumns) + Registered(cols)
    {
      var i := 0;
      while i < |cols|
        invariant 0 <= i <= |cols|
        invariant columns == old(columns) + Unseen(cols[..i], old(allColumns))
        invariant allColumns == old(allColumns) + Registered(cols[..i])
        invariant Valid()
      {
        var column := cols[i];
        UnseenAppend(cols[..i], [column], old(allColumns));
        assert cols[..i + 1] == cols[..i] + [column];
        if column != IdColumn && column !in allColumns {
          allColumns := allColumns + {column};
          columns := columns + [column];
        }
        i := i + 1;
      }
      assert cols[..i] == cols;
    }

    /** `create_record`: registers the row's keys as columns (before `_id` is removed), then makes the record. */
    method CreateRecord(number: int, row: Row) returns (r: Result<DatastoreRecord, FeedError>)
      requires Valid()
      modifies this
      ensures Valid()
      ensures columns == old(columns) + Unseen(row.keys, old(allColumns))
      ensures allColumns == old(allColumns) + Registered(row.keys)
      ensures r == MakeRecord(version, resourceId, idOffset, number, row)
    {
      UpdateColumns(row.keys);
      var data := row.cells - {IdColumn};
      var idValue := if IdColumn in row.cells then row.cells[IdColumn] else Int(idOffset + number);
      var id := CellInt(idValue);
      if id.Err? {
        return Err(id.error);
      }
      r := Ok(DatastoreRecord(version, id.value, data, resourceId));
    }

    /**
     * `APIDatastoreFeeder.records` and the row loop of `SVFeeder.records`: rows numbered
     * from 1 in list order, one record each, up to the first row whose id fails.
     */
    method Records(rows: seq<Row>) returns (records: seq<DatastoreRecord>, failure: Option<FeedError>)
      requires Valid()
      modifies this
      ensures Valid()
      ensures Numbered(version, resourceId, idOffset, rows, records)
      ensures failure.None? ==> |records| == |rows|
      ensures failure.Some? ==> (|records| < |rows| &&
        MakeRecord(version, resourceId, idOffset, |records| + 1, rows[|records|]) == Err(failure.value))
      ensures failure.None? ==> columns == old(columns) + Unseen(AllKeys(rows), old(allColumns))
      ensures failure.Some? ==> columns == old(columns) + Unseen(AllKeys(rows[..|records| + 1]), old(allColumns))
    {
      records := [];
      failure := None;
      var i := 0;
      while i < |rows|
        invariant 0 <= i <= |rows| && |records| == i
        invariant Valid()
        invariant Numbered(version, resourceId, idOffset, rows, records)
        invariant columns == old(columns) + Unseen(AllKeys(rows[..i]), old(allColumns))
        invariant allColumns == old(allColumns) + Registered(AllKeys(rows[..i]))
      {
        ghost var columnsBefore, allBefore := columns, allColumns;
        var r := CreateRecord(i + 1, rows[i]);
        RegisterRow(rows, i, old(columns), old(allColumns), columnsBefore, allBefore, columns, allColumns);
        if r.Err? {
          failure := Some(r.error);
          return;
        }
        NumberedAppend(version, resourceId, idOffset, rows, records, r.value);
        records := records + [r.value];
        i := i + 1;
      }
      assert rows[..i] == rows;
    }

    /**
     * `SVFeeder.records`: the header's field names are registered before any row, so the
     * columns follow the header's order; then the rows, numbered from 1.
     */
    method SvRecords(fieldNames: seq<string>, rows: seq<Row>)
      returns (records: seq<DatastoreRecord>, failure: Option<FeedError>)
      requires Valid()
      modifies this
      ensures Valid()
      ensures Numbered(version, resourceId, idOffset, rows, records)
      ensures failure.None? ==> |records| == |rows|
      ensures failure.Some? ==> (|records| < |rows| &&
        MakeRecord(version, resourceId, idOffset, |records| + 1, rows[|records|]) == Err(failure.value))
      ensures failure.None? ==>
        columns == old(columns) + Unseen(fieldNames + AllKeys(rows), old(allColumns))
      ensures failure.Some? ==>
        columns == old(columns) + Unseen(fieldNames + AllKeys(rows[..|records| + 1]), old(allColumns))
    {
      if fieldNames != [] {
        UpdateColumns(fieldNames);
      }
      assert allColumns == old(allColumns) + Registered(fieldNames);
      ghost var headerColumns, headerAll := columns, allColumns;
      assert headerColumns == old(columns) + Unseen(fieldNames, old(allColumns));
      records, failure := Records(rows);
      if failure.None? {
        HeaderThenRows(fieldNames, AllKeys(rows), old(columns), old(allColumns), headerColumns, headerAll, columns);
      } else {
        HeaderThenRows(fieldNames, AllKeys(rows[..|records| + 1]), old(columns), old(allColumns),
                       headerColumns, headerAll, columns);
      }
    }
  }

  /** Registering a header and then the keys read gives the columns of registering both at once. */
  lemma HeaderThenRows(header: seq<string>, read: seq<string>, columns0: seq<string>, all0: set<string>,
                       columns1: seq<string>, all1: set<string>, columns2: seq<string>)
    requires columns1 == columns0 + Unseen(header, all0) && all1 == all0 + Registered(header)
    requires columns2 == columns1 + Unseen(read, all1)
    ensures columns2 == columns0 + Unseen(header + read, all0)
  {
    UnseenAppend(header, read, all0);
  }

  /** Row `i` (numbered `i + 1`) made record `i`, for every record. */
  predicate Numbered(version: int, resourceId: string, idOffset: int, rows: seq<Row>, records: seq<DatastoreRecord>)
  {
    |records| <= |rows| &&
    forall i :: 0 <= i < |records| ==> MakeRecord(version, resourceId, idOffset, i + 1, rows[i]) == Ok(records[i])
  }

  lemma NumberedAppend(version: int, resourceId: string, idOffset: int, rows: seq<Row>,
                       records: seq<DatastoreRecord>, r: DatastoreRecord)
    requires Numbered(version, resourceId, idOffset, rows, records) && |records| < |rows|
    requires MakeRecord(version, resourceId, idOffset, |records| + 1, rows[|records|]) == Ok(r)
    ensures Numbered(version, resourceId, idOffset, rows, records + [r])
  {
  }

  /** All the keys of the rows, row after row. */
  function AllKeys(rows: seq<Row>): seq<string>
  {
    if rows == [] then [] else AllKeys(rows[..|rows| - 1]) + rows[|rows| - 1].keys
  }

  /** Reading one more row registers its keys after those of the rows before it. */
  lemma RegisterRow(rows: seq<Row>, i: nat, columns0: seq<string>, all0: set<string>,
                    columns: seq<string>, all: set<string>, columns': seq<string>, all': set<string>)
    requires i < |rows|
    requires columns == columns0 + Unseen(AllKeys(rows[..i]), all0)
    requires all == all0 + Registered(AllKeys(rows[..i]))
    requires columns' == columns + Unseen(rows[i].keys, all)
    requires all' == all + Registered(rows[i].keys)
    ensures columns' == columns0 + Unseen(AllKeys(rows[..i + 1]), all0)
    ensures all' == all0 + Registered(AllKeys(rows[..i + 1]))
  {
    assert rows[..i + 1][..i] == rows[..i];
    assert AllKeys(rows[..i + 1]) == AllKeys(rows[..i]) + rows[i].keys;
    UnseenAppend(AllKeys(rows[..i]), rows[i].keys, all0);
    assert Registered(AllKeys(rows[..i]) + rows[i].keys) == Registered(AllKeys(rows[..i])) + Registered(rows[i].keys);
  }

  // ---------------------------------------------------------------------------
  // Headers and encoding

  /** `headers`: the API key as `Authorization` only for an upload URL with a non-empty key. */
  function Headers(isUpload: bool, apiKey: Option<string>): (h: map<string, string>)
    ensures h != map[] <==> isUpload && apiKey.Some? && apiKey.value != ""
    ensures h != map[] ==> h == map["Authorization" := apiKey.value]
  {
    if isUpload && apiKey.Some? && apiKey.value != "" then
      var h := map["Authorization" := apiKey.value];
      assert "Authorization" in h;
      h
    else map[]
  }

  /** The encoding the rows are read with: UTF-8 when detection failed or found ASCII, else what it found. */
  function ReadEncoding(detected: Option<string>): (e: string)
    ensures detected.None? || detected.value == "ASCII" ==> e == "utf-8"
    ensures detected.Some? && detected.value != "ASCII" ==> e == detected.value
  {
    if detected.None? || detected.value == "ASCII" then "utf-8" else detected.value
  }
}
