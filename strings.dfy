/**
 * String helpers shared by the model: the code-point order Python uses to compare
 * `unicode` values, `sorted` on a list of strings, `sep.join(parts)` and `s.split(sep)`.
 */
module Strings {

  /** Python's `a <= b` on unicode strings: lexicographic by code point, a prefix first. */
  predicate Le(a: string, b: string)
  {
    |a| == 0 || (|b| > 0 && (a[0] < b[0] || (a[0] == b[0] && Le(a[1..], b[1..]))))
  }

  lemma {:induction false} LeReflexive(a: string)
    ensures Le(a, a)
  {
    if |a| > 0 { LeReflexive(a[1..]); }
  }

  lemma {:induction false} LeTotal(a: string, b: string)
    ensures Le(a, b) || Le(b, a)
  {
    if |a| > 0 && |b| > 0 && a[0] == b[0] { LeTotal(a[1..], b[1..]); }
  }

  lemma {:induction false} LeAntisymmetric(a: string, b: string)
    requires Le(a, b) && Le(b, a)
    ensures a == b
  {
    if |a| > 0 && |b| > 0 {
      LeAntisymmetric(a[1..], b[1..]);
      assert a == [a[0]] + a[1..] && b == [b[0]] + b[1..];
    }
  }

  lemma {:induction false} LeTransitive(a: string, b: string, c: string)
    requires Le(a, b) && Le(b, c)
    ensures Le(a, c)
  {
    if |a| > 0 && |b| > 0 && |c| > 0 && a[0] == b[0] && b[0] == c[0] {
      LeTransitive(a[1..], b[1..], c[1..]);
    }
  }

  ghost predicate Sorted(s: seq<string>)
  {
    forall i, j :: 0 <= i < j < |s| ==> Le(s[i], s[j])
  }

  /** Inserts `x` into the sorted list `s` before the first element it does not exceed. */
  function Insert(x: string, s: seq<string>): (r: seq<string>)
    requires Sorted(s)
    ensures Sorted(r)
    ensures multiset(r) == multiset(s) + multiset{x}
  {
    if s == [] then [x]
    else if Le(x, s[0]) then
      assert forall j :: 0 < j < |s| ==> Le(x, s[j]) by {
        forall j | 0 < j < |s| ensures Le(x, s[j]) { LeTransitive(x, s[0], s[j]); }
      }
      [x] + s
    else
      LeTotal(x, s[0]);
      var t := Insert(x, s[1..]);
      assert s == [s[0]] + s[1..];
      assert forall k :: 0 <= k < |t| ==> Le(s[0], t[k]) by {
        forall k | 0 <= k < |t| ensures Le(s[0], t[k]) {
          assert t[k] in multiset(t);
          if t[k] != x {
            assert t[k] in multiset(s[1..]);
            var j :| 0 <= j < |s[1..]| && s[1..][j] == t[k];
            assert s[j + 1] == t[k];
          }
        }
      }
      [s[0]] + t
  }

  /** `sorted(s)`: the ascending permutation of `s`. */
  function Sort(s: seq<string>): (r: seq<string>)
    ensures Sorted(r)
    ensures multiset(r) == multiset(s)
  {
    if s == [] then []
    else
      assert s == [s[0]] + s[1..];
      Insert(s[0], Sort(s[1..]))
  }

  /** Two sorted lists holding the same strings are the same list. */
  lemma {:induction false} SortedUnique(a: seq<string>, b: seq<string>)
    requires Sorted(a) && Sorted(b)
    requires multiset(a) == multiset(b)
    ensures a == b
  {
    if a != [] {
      assert |b| == |multiset(b)| == |multiset(a)| == |a|;
      SortedHeadLe(b, a[0]);
      SortedHeadLe(a, b[0]);
      LeAntisymmetric(a[0], b[0]);
      MultisetTail(a);
      MultisetTail(b);
      SortedUnique(a[1..], b[1..]);
      assert a == [a[0]] + a[1..] && b == [b[0]] + b[1..];
    }
  }

  lemma SortedHeadLe(s: seq<string>, x: string)
    requires Sorted(s) && x in multiset(s)
    ensures Le(s[0], x)
  {
    var j :| 0 <= j < |s| && s[j] == x;
    if j == 0 { LeReflexive(x); }
  }

  lemma MultisetTail<T>(s: seq<T>)
    requires s != []
    ensures multiset(s[1..]) == multiset(s) - multiset{s[0]}
  {
    assert s == [s[0]] + s[1..];
  }

  lemma MultisetRemoveAt<T>(s: seq<T>, j: nat)
    requires j < |s|
    ensures multiset(s[..j] + s[j + 1..]) == multiset(s) - multiset{s[j]}
  {
    assert s == s[..j] + [s[j]] + s[j + 1..];
  }

  /** `sorted` forgets the input order: any reordering of the input sorts to the same list. */
  lemma SortPermutationInvariant(s: seq<string>, t: seq<string>)
    requires multiset(s) == multiset(t)
    ensures Sort(s) == Sort(t)
  {
    SortedUnique(Sort(s), Sort(t));
  }

  /** `sep.join(parts)`. */
  function Join(parts: seq<string>, sep: string): string
  {
    if |parts| == 0 then ""
    else if |parts| == 1 then parts[0]
    else parts[0] + sep + Join(parts[1..], sep)
  }

  /**
   * `s.split(sep)` for a non-empty separator: scanning left to right, every
   * occurrence of `sep` not overlapping an earlier one ends a piece.
   */
  function Split(s: string, sep: string): (pieces: seq<string>)
    requires |sep| > 0
    ensures |pieces| >= 1
    decreases |s|
  {
    if |s| < |sep| then [s]
    else if s[..|sep|] == sep then [""] + Split(s[|sep|..], sep)
    else
      var rest := Split(s[1..], sep);
      [[s[0]] + rest[0]] + rest[1..]
  }

  /** Joining the pieces of a split with the same separator gives back the string. */
  lemma {:induction false} JoinSplit(s: string, sep: string)
    requires |sep| > 0
    ensures Join(Split(s, sep), sep) == s
    decreases |s|
  {
    if |s| < |sep| {
    } else if s[..|sep|] == sep {
      var rest := Split(s[|sep|..], sep);
      JoinSplit(s[|sep|..], sep);
      assert [""] + rest == Split(s, sep);
      assert ([""] + rest)[1..] == rest;
      assert s == s[..|sep|] + s[|sep|..];
    } else {
      var rest := Split(s[1..], sep);
      JoinSplit(s[1..], sep);
      var pieces := [[s[0]] + rest[0]] + rest[1..];
      assert pieces == Split(s, sep);
      if |rest| > 1 {
        assert pieces[1..] == rest[1..];
      }
      assert s == [s[0]] + s[1..];
    }
  }

  /** Splitting on a one-character separator: a head without it stays whole in the first piece. */
  lemma {:induction false} SplitFreeHead(p: string, d: char, tail: string)
    requires d !in p
    ensures Split(p + tail, [d]) == [p + Split(tail, [d])[0]] + Split(tail, [d])[1..]
    decreases |p|
  {
    if p != [] {
      SplitFreeHead(p[1..], d, tail);
      var s := p + tail;
      assert s[..1] == [p[0]] && s[1..] == p[1..] + tail;
      assert [s[0]] + (p[1..] + Split(tail, [d])[0]) == p + Split(tail, [d])[0];
    } else {
      var pieces := Split(tail, [d]);
      assert p + tail == tail && p + pieces[0] == pieces[0];
      assert pieces == [pieces[0]] + pieces[1..];
    }
  }

  /** Splitting the join of pieces free of a one-character separator gives the pieces back. */
  lemma {:induction false} SplitJoin(pieces: seq<string>, d: char)
    requires pieces != []
    requires forall i :: 0 <= i < |pieces| ==> d !in pieces[i]
    ensures Split(Join(pieces, [d]), [d]) == pieces
    decreases |pieces|
  {
    var p := pieces[0];
    if |pieces| == 1 {
      SplitFreeHead(p, d, "");
      assert p + "" == p;
    } else {
      var more := pieces[1..];
      SplitJoin(more, d);
      var tail := [d] + Join(more, [d]);
      assert Join(pieces, [d]) == p + tail;
      assert tail[..1] == [d] && tail[1..] == Join(more, [d]);
      assert Split(tail, [d]) == [""] + more;
      SplitFreeHead(p, d, tail);
      assert p + "" == p;
      assert pieces == [p] + more;
    }
  }

  /** The index of the last `c` in `s`. */
  function LastIndexOf(s: string, c: char): (k: nat)
    requires c in s
    ensures k < |s| && s[k] == c
    ensures forall j :: k < j < |s| ==> s[j] != c
  {
    if s[|s| - 1] == c then |s| - 1
    else
      assert c in s[..|s| - 1] by {
        var i :| 0 <= i < |s| && s[i] == c;
        assert s[..|s| - 1][i] == c;
      }
      LastIndexOf(s[..|s| - 1], c)
  }

  /** `s.rsplit(sep, 1)` for a string that holds `sep`: the parts before and after its last occurrence. */
  function RSplitOnce(s: string, sep: char): (string, string)
    requires sep in s
  {
    var k := LastIndexOf(s, sep);
    (s[..k], s[k + 1..])
  }

  predicate EndsWith(s: string, suffix: string)
  {
    |suffix| <= |s| && s[|s| - |suffix|..] == suffix
  }

  /** A string ending in a space followed by a space-free word splits at that space. */
  lemma RSplitAtSuffix(s: string, suffix: string)
    requires EndsWith(s, suffix) && |suffix| > 0 && suffix[0] == ' '
    requires forall j :: 0 < j < |suffix| ==> suffix[j] != ' '
    ensures ' ' in s
    ensures RSplitOnce(s, ' ') == (s[..|s| - |suffix|], suffix[1..])
  {
    var n := |s| - |suffix|;
    assert s[n] == s[n..][0] == ' ';
    assert LastIndexOf(s, ' ') == n;
  }

  ghost predicate NoDup<T>(s: seq<T>)
  {
    forall i, j :: 0 <= i < j < |s| ==> s[i] != s[j]
  }

  /** Two duplicate-free lists with no common element concatenate to a duplicate-free list. */
  lemma NoDupAppend<T>(a: seq<T>, b: seq<T>)
    requires NoDup(a) && NoDup(b)
    requires forall x :: x in a ==> x !in b
    ensures NoDup(a + b)
  {
    forall i, j | 0 <= i < j < |a + b|
      ensures (a + b)[i] != (a + b)[j]
    {
      if j >= |a| && i < |a| {
        assert (a + b)[i] in a && (a + b)[j] in b;
      } else if i >= |a| {
        assert (a + b)[i] == b[i - |a|] && (a + b)[j] == b[j - |a|];
      }
    }
  }

  /** `[f(x) for x in s]`. */
  function MapSeq<A, B>(f: A -> B, s: seq<A>): (r: seq<B>)
    ensures |r| == |s|
    ensures forall i :: 0 <= i < |s| ==> r[i] == f(s[i])
  {
    seq(|s|, i requires 0 <= i < |s| => f(s[i]))
  }

  /** Mapping over one more element of a prefix appends that element's image. */
  lemma MapSeqSnoc<A, B>(f: A -> B, s: seq<A>, i: nat)
    requires i < |s|
    ensures MapSeq(f, s[..i + 1]) == MapSeq(f, s[..i]) + [f(s[i])]
  {
  }

  /** Mapping a function over two reorderings of one list gives two reorderings of one list. */
  lemma {:induction false} MapPermutation<A, B>(f: A -> B, s: seq<A>, t: seq<A>)
    requires multiset(s) == multiset(t)
    ensures multiset(MapSeq(f, s)) == multiset(MapSeq(f, t))
    decreases |s|
  {
    if s == [] {
      assert |t| == |multiset(t)| == 0;
    } else {
      var j := IndexOf(t, s[0]);
      MultisetTail(s);
      MultisetRemoveAt(t, j);
      MapPermutation(f, s[1..], t[..j] + t[j + 1..]);
      MapMoveToFront(f, s, t, j);
    }
  }

  /** The step of MapPermutation: `t` is `s` with its head moved to index `j`. */
  lemma MapMoveToFront<A, B>(f: A -> B, s: seq<A>, t: seq<A>, j: nat)
    requires s != [] && j < |t| && t[j] == s[0]
    requires multiset(MapSeq(f, s[1..])) == multiset(MapSeq(f, t[..j] + t[j + 1..]))
    ensures multiset(MapSeq(f, s)) == multiset(MapSeq(f, t))
  {
    assert s == [] + [s[0]] + s[1..];
    assert [] + s[1..] == s[1..];
    MapInsert(f, [], s[0], s[1..]);
    assert t == t[..j] + [t[j]] + t[j + 1..];
    MapInsert(f, t[..j], t[j], t[j + 1..]);
  }

  lemma MapInsert<A, B>(f: A -> B, left: seq<A>, x: A, right: seq<A>)
    ensures multiset(MapSeq(f, left + [x] + right)) == multiset{f(x)} + multiset(MapSeq(f, left + right))
  {
    assert MapSeq(f, left + [x] + right) == MapSeq(f, left) + [f(x)] + MapSeq(f, right);
    assert MapSeq(f, left + right) == MapSeq(f, left) + MapSeq(f, right);
  }

  lemma IndexOf<T>(t: seq<T>, x: T) returns (j: nat)
    requires x in multiset(t)
    ensures j < |t| && t[j] == x
  {
    assert x in t;
    j :| 0 <= j < |t| && t[j] == x;
  }
}
