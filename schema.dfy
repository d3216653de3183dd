/**
 * The `list_of_strings` converter of the action schemas (logic/schema.py): a list passes
 * through, a string is split on the delimiter, anything else is invalid.
 */
module Schema {
  import opened Wrappers
  import opened Strings

  /** A request parameter value, as far as the converter tells values apart. */
  datatype Value = ListValue(items: seq<Value>) | StringValue(s: string) | OtherValue

  /** `Invalid` raised by the converter, or the `ValueError` of splitting on an empty delimiter. */
  datatype ConvertError = InvalidListOfStrings | EmptySeparator

  /** The delimiter when none is given. */
  const DefaultDelimiter: string := ","

  /** The converter `list_of_strings(delimiter)` applied to `value`. */
  function ListOfStrings(delimiter: string, value: Value): (r: Result<seq<Value>, ConvertError>)
    ensures value.ListValue? ==> r == Ok(value.items)
    ensures value.OtherValue? ==> r == Err(InvalidListOfStrings)
    ensures value.StringValue? ==> (r.Err? <==> delimiter == "")
    ensures value.StringValue? && r.Ok? ==>
      (forall i :: 0 <= i < |r.value| ==> r.value[i].StringValue?)
  {
    match value
    case ListValue(items) => Ok(items)
    case StringValue(s) =>
      if delimiter == "" then Err(EmptySeparator)
      else Ok(MapSeq(s => StringValue(s), Split(s, delimiter)))
    case OtherValue => Err(InvalidListOfStrings)
  }

  /** The strings of a converted string value, when they are all strings. */
  function Texts(vs: seq<Value>): seq<string>
  {
    MapSeq((v: Value) => if v.StringValue? then v.s else "", vs)
  }

  /** `sep` occurs in `s` at index `k`. */
  predicate OccursAt(s: string, sep: string, k: int)
  {
    0 <= k && k + |sep| <= |s| && s[k..k + |sep|] == sep
  }

  /** Joining the pieces with the delimiter gives back the string that was split. */
  lemma ListOfStringsJoin(delimiter: string, s: string)
    requires delimiter != ""
    ensures ListOfStrings(delimiter, StringValue(s)).Ok?
    ensures Join(Texts(ListOfStrings(delimiter, StringValue(s)).value), delimiter) == s
  {
    var pieces := Split(s, delimiter);
    var r := ListOfStrings(delimiter, StringValue(s)).value;
    assert Texts(r) == pieces;
    JoinSplit(s, delimiter);
  }

  /** A string without the delimiter becomes a one-item list of itself. */
  lemma {:induction false} SplitWithoutSeparator(s: string, sep: string)
    requires |sep| > 0
    requires forall k :: !OccursAt(s, sep, k)
    ensures Split(s, sep) == [s]
    decreases |s|
  {
    if |s| >= |sep| {
      assert s[0..|sep|] == s[..|sep|];
      assert !OccursAt(s, sep, 0);
      forall k
        ensures !OccursAt(s[1..], sep, k)
      {
        if 0 <= k && k + |sep| <= |s[1..]| {
          assert s[1..][k..k + |sep|] == s[k + 1..k + 1 + |sep|];
          assert !OccursAt(s, sep, k + 1);
        }
      }
      SplitWithoutSeparator(s[1..], sep);
      assert [s[0]] + s[1..] == s;
    }
  }

  /** A value without the delimiter is a one-item list. */
  lemma ListOfStringsSingle(delimiter: string, s: string)
    requires delimiter != ""
    requires forall k :: !OccursAt(s, delimiter, k)
    ensures ListOfStrings(delimiter, StringValue(s)) == Ok([StringValue(s)])
  {
    SplitWithoutSeparator(s, delimiter);
    assert MapSeq(s => StringValue(s), [s]) == [StringValue(s)];
  }

  /** The first piece of a split is a prefix of the string. */
  lemma {:induction false} SplitFirstIsPrefix(s: string, sep: string)
    requires |sep| > 0
    ensures Split(s, sep)[0] <= s
    decreases |s|
  {
    if |s| >= |sep| && s[..|sep|] != sep {
      SplitFirstIsPrefix(s[1..], sep);
      assert s == [s[0]] + s[1..];
    }
  }

  /** No piece of a split contains the separator: the string is cut at every occurrence. */
  lemma {:induction false} SplitPiecesFree(s: string, sep: string)
    requires |sep| > 0
    ensures forall i, k :: 0 <= i < |Split(s, sep)| ==> !OccursAt(Split(s, sep)[i], sep, k)
    decreases |s|
  {
    var pieces := Split(s, sep);
    if |s| < |sep| {
    } else if s[..|sep|] == sep {
      SplitPiecesFree(s[|sep|..], sep);
      assert pieces == [""] + Split(s[|sep|..], sep);
      assert forall k :: !OccursAt("", sep, k);
    } else {
      var rest := Split(s[1..], sep);
      SplitPiecesFree(s[1..], sep);
      SplitFirstIsPrefix(s[1..], sep);
      var first := [s[0]] + rest[0];
      assert pieces == [first] + rest[1..];
      forall k | OccursAt(first, sep, k)
        ensures false
      {
        if k > 0 {
          assert first[k..k + |sep|] == rest[0][k - 1..k - 1 + |sep|];
          assert OccursAt(rest[0], sep, k - 1);
        }
      }
      forall i, k | 0 <= i < |pieces|
        ensures !OccursAt(pieces[i], sep, k)
      {
        if i > 0 {
          assert pieces[i] == rest[i];
        }
      }
    }
  }

  /** The pieces a string value converts to never contain the delimiter. */
  lemma ListOfStringsCutsAtDelimiter(delimiter: string, s: string)
    requires delimiter != ""
    ensures ListOfStrings(delimiter, StringValue(s)).Ok?
    ensures var pieces := Texts(ListOfStrings(delimiter, StringValue(s)).value);
      forall i, k :: 0 <= i < |pieces| ==> !OccursAt(pieces[i], delimiter, k)
  {
    assert Texts(ListOfStrings(delimiter, StringValue(s)).value) == Split(s, delimiter);
    SplitPiecesFree(s, delimiter);
  }

  /**
   * With a one-character delimiter, such as the default `,`, pieces free of it joined
   * with it convert back to those pieces.
   */
  lemma ListOfStringsOfJoin(d: char, pieces: seq<string>)
    requires pieces != []
    requires forall i :: 0 <= i < |pieces| ==> d !in pieces[i]
    ensures ListOfStrings([d], StringValue(Join(pieces, [d]))).Ok?
    ensures Texts(ListOfStrings([d], StringValue(Join(pieces, [d]))).value) == pieces
  {
    SplitJoin(pieces, d);
    assert Texts(ListOfStrings([d], StringValue(Join(pieces, [d]))).value) == Split(Join(pieces, [d]), [d]);
  }

  /** A converted list converts to itself again: the converter is idempotent on its results. */
  lemma ListOfStringsIdempotent(delimiter: string, value: Value)
    requires ListOfStrings(delimiter, value).Ok?
    ensures ListOfStrings(delimiter, ListValue(ListOfStrings(delimiter, value).value))
      == ListOfStrings(delimiter, value)
  {
  }
}
