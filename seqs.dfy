/**
 * The order-preserving sequence operations the scripts take from pandas:
 * boolean-mask selection, `unique()` and a stable sort.
 */
module Seqs {

  // ---------------------------------------------------------------------------
  // Boolean-mask selection: df[mask]
  // ---------------------------------------------------------------------------

  /** `df[mask]`: the rows for which `p` holds, in their original order. */
  function Filter<T(!new)>(s: seq<T>, p: T -> bool): (r: seq<T>)
    ensures forall i :: 0 <= i < |r| ==> p(r[i])
    ensures forall x :: x in r ==> x in s
  {
    if s == [] then []
    else (if p(s[0]) then [s[0]] else []) + Filter(s[1..], p)
  }

  /** Selection keeps every occurrence of a row that satisfies `p` and drops every other one. */
  lemma {:induction false} FilterCount<T(!new)>(s: seq<T>, p: T -> bool, x: T)
    ensures multiset(Filter(s, p))[x] == if p(x) then multiset(s)[x] else 0
  {
    if s != [] {
      FilterCount(s[1..], p, x);
      assert s == [s[0]] + s[1..];
    }
  }

  lemma FilterSingleton<T(!new)>(x: T, p: T -> bool)
    ensures Filter([x], p) == if p(x) then [x] else []
  {
    assert [x][1..] == [];
  }

  /** Selection distributes over concatenation: it keeps the relative order of the rows. */
  lemma {:induction false} FilterAppend<T(!new)>(a: seq<T>, b: seq<T>, p: T -> bool)
    ensures Filter(a + b, p) == Filter(a, p) + Filter(b, p)
  {
    if a != [] {
      assert (a + b)[1..] == a[1..] + b;
      FilterAppend(a[1..], b, p);
      assert Filter(a + b, p) == (if p(a[0]) then [a[0]] else []) + Filter(a[1..] + b, p);
    } else {
      assert a + b == b;
    }
  }

  /** What a selection keeps of a prefix is a prefix of what it keeps of the whole. */
  lemma {:induction false} FilterTake<T(!new)>(s: seq<T>, m: nat, p: T -> bool)
    requires m <= |s|
    ensures |Filter(s[..m], p)| <= |Filter(s, p)|
    ensures Filter(s[..m], p) == Filter(s, p)[..|Filter(s[..m], p)|]
  {
    var a, b := s[..m], s[m..];
    assert s == a + b;
    FilterAppend(a, b, p);
  }

  /** Two selections in a row are one selection on both conditions. */
  lemma {:induction false} FilterFilter<T(!new)>(s: seq<T>, p: T -> bool, q: T -> bool, pq: T -> bool)
    requires forall x :: pq(x) == (p(x) && q(x))
    ensures Filter(Filter(s, p), q) == Filter(s, pq)
  {
    if s != [] {
      FilterFilter(s[1..], p, q, pq);
      FilterAppend(if p(s[0]) then [s[0]] else [], Filter(s[1..], p), q);
    }
  }

  // ---------------------------------------------------------------------------
  // Series.unique()
  // ---------------------------------------------------------------------------

  /** The position of the first occurrence of `x` in `s`. */
  function FirstIndex<T(==)>(s: seq<T>, x: T): (k: nat)
    requires x in s
    ensures k < |s| && s[k] == x && x !in s[..k]
  {
    if x in s[..|s| - 1] then FirstIndex(s[..|s| - 1], x) else |s| - 1
  }

  /** `unique()`: every distinct value of `s` once, in order of first appearance. */
  function Unique<T(==,!new)>(s: seq<T>): (r: seq<T>)
    ensures forall x :: x in r <==> x in s
    ensures forall i, j :: 0 <= i < j < |r| ==> r[i] != r[j]
    ensures forall i, j :: 0 <= i < j < |r| ==> FirstIndex(s, r[i]) < FirstIndex(s, r[j])
    ensures s != [] ==> r != [] && r[0] == s[0]
  {
    if s == [] then []
    else
      var init := s[..|s| - 1];
      var u := Unique(init);
      forall x | x in init ensures FirstIndex(s, x) == FirstIndex(init, x) {
        FirstIndexOfPrefix(s, x);
      }
      if s[|s| - 1] in u then u else u + [s[|s| - 1]]
  }

  lemma FirstIndexOfPrefix<T>(s: seq<T>, x: T)
    requires s != [] && x in s[..|s| - 1]
    ensures FirstIndex(s, x) == FirstIndex(s[..|s| - 1], x)
  {
  }

  // ---------------------------------------------------------------------------
  // Stable sorting
  // ---------------------------------------------------------------------------

  /** `le` is a total preorder: any two values compare, and comparison chains. */
  ghost predicate TotalPreorder<T(!new)>(le: (T, T) -> bool) {
    (forall a, b :: le(a, b) || le(b, a)) &&
    (forall a, b, c :: le(a, b) && le(b, c) ==> le(a, c))
  }

  predicate SortedBy<T>(s: seq<T>, le: (T, T) -> bool) {
    forall i, j :: 0 <= i < j < |s| ==> le(s[i], s[j])
  }

  /** Puts `x` in front of the first element it may precede. */
  function InsertBy<T(!new)>(x: T, s: seq<T>, le: (T, T) -> bool): (r: seq<T>)
    requires TotalPreorder(le) && SortedBy(s, le)
    ensures multiset(r) == multiset(s) + multiset{x}
    ensures SortedBy(r, le)
  {
    if s == [] then [x]
    else if le(x, s[0]) then
      assert forall j :: 0 <= j < |s| ==> le(x, s[j]) by {
        forall j | 0 <= j < |s| ensures le(x, s[j]) {
          if j > 0 { assert le(s[0], s[j]); }
        }
      }
      [x] + s
    else
      var t := InsertBy(x, s[1..], le);
      assert s == [s[0]] + s[1..];
      assert forall j :: 0 <= j < |t| ==> le(s[0], t[j]) by {
        forall j | 0 <= j < |t| ensures le(s[0], t[j]) {
          assert t[j] in multiset(t);
          if t[j] != x {
            assert t[j] in multiset(s[1..]);
            var k :| 0 <= k < |s[1..]| && s[1..][k] == t[j];
            assert s[k + 1] == t[j];
          }
        }
      }
      [s[0]] + t
  }

  /** A sort by `le`: insertion sort, each element going before the equal ones after it, so it is stable (`SortByKeepsTies`). */
  function SortBy<T(!new)>(s: seq<T>, le: (T, T) -> bool): (r: seq<T>)
    requires TotalPreorder(le)
    ensures multiset(r) == multiset(s)
    ensures SortedBy(r, le)
  {
    if s == [] then []
    else
      assert s == [s[0]] + s[1..];
      InsertBy(s[0], SortBy(s[1..], le), le)
  }

  /** The elements `le` ranks equal to `c`. */
  function TiedWith<T>(le: (T, T) -> bool, c: T): T -> bool {
    (y: T) => le(c, y) && le(y, c)
  }

  lemma SortedTail<T>(s: seq<T>, le: (T, T) -> bool)
    requires s != [] && SortedBy(s, le)
    ensures SortedBy(s[1..], le)
  {
    forall i, j | 0 <= i < j < |s[1..]| ensures le(s[1..][i], s[1..][j]) {
      assert s[1..][i] == s[i + 1] && s[1..][j] == s[j + 1];
    }
  }

  /** Inserting `x` puts it in front of every element tied with it, and moves no tied element past another. */
  lemma {:induction false} InsertByKeepsTies<T(!new)>(x: T, s: seq<T>, le: (T, T) -> bool, c: T)
    requires TotalPreorder(le) && SortedBy(s, le)
    ensures Filter(InsertBy(x, s, le), TiedWith(le, c)) == Filter([x], TiedWith(le, c)) + Filter(s, TiedWith(le, c))
  {
    var p := TiedWith(le, c);
    if s == [] {
      assert Filter(s, p) == [];
    } else if le(x, s[0]) {
      FilterAppend([x], s, p);
    } else {
      SortedTail(s, le);
      var t := InsertBy(x, s[1..], le);
      var a, b, rest := Filter([s[0]], p), Filter([x], p), Filter(s[1..], p);
      assert Filter(t, p) == b + rest by {
        InsertByKeepsTies(x, s[1..], le, c);
      }
      assert Filter([s[0]] + t, p) == a + Filter(t, p) by {
        FilterAppend([s[0]], t, p);
      }
      assert Filter(s, p) == a + rest by {
        assert s == [s[0]] + s[1..];
        FilterAppend([s[0]], s[1..], p);
      }
      assert a + b == b + a by {
        TiedSwap(x, s[0], le, c);
      }
      assert a + (b + rest) == b + (a + rest) by {
        assert a + (b + rest) == (a + b) + rest;
        assert b + (a + rest) == (b + a) + rest;
      }
      assert InsertBy(x, s, le) == [s[0]] + t;
    }
  }

  /** Two elements of which the first does not rank below the second are never both tied with `c`. */
  lemma TiedSwap<T(!new)>(x: T, y: T, le: (T, T) -> bool, c: T)
    requires TotalPreorder(le) && !le(x, y)
    ensures Filter([y], TiedWith(le, c)) + Filter([x], TiedWith(le, c))
         == Filter([x], TiedWith(le, c)) + Filter([y], TiedWith(le, c))
  {
    var p := TiedWith(le, c);
    assert !(p(x) && p(y)) by {
      assert le(x, c) && le(c, y) ==> le(x, y);
    }
    FilterSingleton(x, p);
    FilterSingleton(y, p);
  }

  /**
   * `SortBy` is stable: the elements tied with any `c` come out in the order
   * they went in.
   */
  lemma {:induction false} SortByKeepsTies<T(!new)>(s: seq<T>, le: (T, T) -> bool, c: T)
    requires TotalPreorder(le)
    ensures Filter(SortBy(s, le), TiedWith(le, c)) == Filter(s, TiedWith(le, c))
  {
    if s != [] {
      var p := TiedWith(le, c);
      var sorted := SortBy(s[1..], le);
      assert Filter(sorted, p) == Filter(s[1..], p) by {
        SortByKeepsTies(s[1..], le, c);
      }
      assert Filter(InsertBy(s[0], sorted, le), p) == Filter([s[0]], p) + Filter(sorted, p) by {
        InsertByKeepsTies(s[0], sorted, le, c);
      }
      assert Filter(s, p) == Filter([s[0]], p) + Filter(s[1..], p) by {
        assert s == [s[0]] + s[1..];
        FilterAppend([s[0]], s[1..], p);
      }
      assert SortBy(s, le) == InsertBy(s[0], sorted, le);
    }
  }
}
