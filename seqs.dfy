/**
  Operations on the rows of a table, kept as a sequence in primary-key order:
  selecting rows (a WHERE clause), rewriting every row (an UPDATE) and ordering
  rows by a descending key (an ORDER BY ... DESC).
*/
module Seqs {
  import opened Wrappers

  /** The position of the first row that satisfies `p`, if any (a lookup by key). */
  function FindIndex<T(!new)>(s: seq<T>, p: T -> bool): (r: Option<nat>)
    ensures r.Some? ==> r.value < |s| && p(s[r.value]) && forall j :: 0 <= j < r.value ==> !p(s[j])
    ensures r.None? ==> forall x :: x in s ==> !p(x)
  {
    if s == [] then None
    else if p(s[0]) then Some(0)
    else
      match FindIndex(s[1..], p)
      case None => None
      case Some(i) => Some(i + 1)
  }

  /** No two rows of `s` share a key. */
  ghost predicate KeysUnique<T(!new), K(!new)>(s: seq<T>, key: T -> K) {
    forall i, j :: 0 <= i < j < |s| ==> key(s[i]) != key(s[j])
  }

  /** Selecting rows keeps keys unique. */
  lemma {:induction false} FilterKeepsKeysUnique<T(!new), K(!new)>(s: seq<T>, keep: T -> bool, key: T -> K)
    requires KeysUnique(s, key)
    ensures KeysUnique(Filter(s, keep), key)
    decreases |s|
  {
    if s != [] {
      var init, last := s[..|s| - 1], s[|s| - 1];
      assert s == init + [last];
      assert KeysUnique(init, key) by {
        forall i, j | 0 <= i < j < |init| ensures key(init[i]) != key(init[j]) {
          assert init[i] == s[i] && init[j] == s[j];
        }
      }
      FilterKeepsKeysUnique(init, keep, key);
      var fi := Filter(init, keep);
      assert forall x :: x in fi ==> key(x) != key(last) by {
        forall x | x in fi ensures key(x) != key(last) {
          var k :| 0 <= k < |init| && init[k] == x;
          assert s[k] == x;
        }
      }
      assert Filter(s, keep) == fi + (if keep(last) then [last] else []);
      if keep(last) {
        forall i, j | 0 <= i < j < |fi| + 1 ensures key((fi + [last])[i]) != key((fi + [last])[j]) {
          if j == |fi| {
            assert (fi + [last])[i] in fi;
          } else {
            assert (fi + [last])[i] == fi[i] && (fi + [last])[j] == fi[j];
          }
        }
      }
    }
  }

  /** The keys of the rows of `s`. */
  function Keys<T(!new,==), K(!new)>(s: seq<T>, key: T -> K): set<K> {
    set x | x in s :: key(x)
  }

  /** A rewrite that keeps every row's key keeps the set of keys and their uniqueness. */
  lemma MapKeys<T(!new), K(!new)>(s: seq<T>, f: T -> T, key: T -> K)
    requires forall x :: key(f(x)) == key(x)
    ensures Keys(Map(s, f), key) == Keys(s, key)
    ensures KeysUnique(s, key) ==> KeysUnique(Map(s, f), key)
  {
    var r := Map(s, f);
    forall k | k in Keys(s, key) ensures k in Keys(r, key) {
      var x :| x in s && key(x) == k;
      var i :| 0 <= i < |s| && s[i] == x;
      assert r[i] in r;
    }
    forall k | k in Keys(r, key) ensures k in Keys(s, key) {
      var x :| x in r && key(x) == k;
      var i :| 0 <= i < |r| && r[i] == x;
      assert s[i] in s;
    }
  }

  /** Adding a row adds its key. */
  lemma AppendKeys<T(!new), K(!new)>(s: seq<T>, x: T, key: T -> K)
    ensures Keys(s + [x], key) == Keys(s, key) + {key(x)}
  {
    assert forall y :: y in s + [x] <==> y in s || y == x;
  }

  /** Adding a row whose key is new keeps keys unique. */
  lemma AppendKeepsKeysUnique<T(!new), K(!new)>(s: seq<T>, x: T, key: T -> K)
    requires KeysUnique(s, key) && forall y :: y in s ==> key(y) != key(x)
    ensures KeysUnique(s + [x], key)
  {
    forall i, j | 0 <= i < j < |s| + 1 ensures key((s + [x])[i]) != key((s + [x])[j]) {
      if j == |s| {
        assert (s + [x])[i] == s[i];
      } else {
        assert (s + [x])[i] == s[i] && (s + [x])[j] == s[j];
      }
    }
  }

  /** The rows of `s` that satisfy `keep`, in their original order. */
  function Filter<T(!new)>(s: seq<T>, keep: T -> bool): (r: seq<T>)
    ensures |r| <= |s|
    ensures forall x :: x in r <==> x in s && keep(x)
  {
    if s == [] then []
    else
      var init := s[..|s| - 1];
      assert s == init + [s[|s| - 1]];
      Filter(init, keep) + (if keep(s[|s| - 1]) then [s[|s| - 1]] else [])
  }

  /** A selection keeps every copy of a row it keeps, and no copy of a row it drops. */
  lemma {:induction false} FilterCount<T(!new)>(s: seq<T>, keep: T -> bool, x: T)
    ensures multiset(Filter(s, keep))[x] == if keep(x) then multiset(s)[x] else 0
    decreases |s|
  {
    if s != [] {
      var init := s[..|s| - 1];
      assert s == init + [s[|s| - 1]];
      FilterCount(init, keep, x);
    }
  }

  /** A selection that every row passes is the whole table. */
  lemma {:induction false} FilterAll<T(!new)>(s: seq<T>, keep: T -> bool)
    requires forall x :: x in s ==> keep(x)
    ensures Filter(s, keep) == s
    decreases |s|
  {
    if s != [] {
      var init := s[..|s| - 1];
      assert s == init + [s[|s| - 1]];
      FilterAll(init, keep);
    }
  }

  /** Scans the table once and keeps the rows that satisfy `keep`. */
  method Retain<T(!new)>(s: seq<T>, keep: T -> bool) returns (r: seq<T>)
    ensures r == Filter(s, keep)
  {
    r := [];
    var i := 0;
    while i < |s|
      invariant 0 <= i <= |s|
      invariant r == Filter(s[..i], keep)
    {
      assert s[..i + 1][..i] == s[..i];
      if keep(s[i]) {
        r := r + [s[i]];
      }
      i := i + 1;
    }
    assert s[..|s|] == s;
  }

  /** Every row of `s` rewritten by `f`, position by position. */
  function Map<T(!new)>(s: seq<T>, f: T -> T): (r: seq<T>)
    ensures |r| == |s|
    ensures forall i :: 0 <= i < |s| ==> r[i] == f(s[i])
  {
    if s == [] then [] else [f(s[0])] + Map(s[1..], f)
  }

  /** Scans the table once and rewrites each row with `f`. */
  method Apply<T(!new)>(s: seq<T>, f: T -> T) returns (r: seq<T>)
    ensures r == Map(s, f)
  {
    r := [];
    var i := 0;
    while i < |s|
      invariant 0 <= i <= |s|
      invariant |r| == i
      invariant forall k :: 0 <= k < i ==> r[k] == f(s[k])
    {
      r := r + [f(s[i])];
      i := i + 1;
    }
  }

  /** `s` lists its rows from the largest key to the smallest. */
  ghost predicate SortedDesc<T(!new)>(s: seq<T>, key: T -> int) {
    forall i, j :: 0 <= i < j < |s| ==> key(s[i]) >= key(s[j])
  }

  /** The rows after the first of a sorted listing are sorted, and none has a larger key than the first. */
  lemma TailOfSorted<T(!new)>(s: seq<T>, key: T -> int)
    requires SortedDesc(s, key) && s != []
    ensures SortedDesc(s[1..], key)
    ensures forall y :: y in s[1..] ==> key(s[0]) >= key(y)
  {
    forall y | y in s[1..] ensures key(s[0]) >= key(y) {
      var k :| 0 <= k < |s[1..]| && s[1..][k] == y;
      assert s[k + 1] == y;
    }
    SliceOfSorted(s, key, 1, |s|);
  }

  /** A row with a key no smaller than any of a sorted listing's may go in front of it. */
  lemma ConsSorted<T(!new)>(h: T, t: seq<T>, key: T -> int)
    requires SortedDesc(t, key) && forall y :: y in t ==> key(h) >= key(y)
    ensures SortedDesc([h] + t, key)
  {
    forall i, j | 0 <= i < j < |t| + 1 ensures key(([h] + t)[i]) >= key(([h] + t)[j]) {
      assert ([h] + t)[j] == t[j - 1];
      if i == 0 {
        assert t[j - 1] in t;
      } else {
        assert ([h] + t)[i] == t[i - 1];
      }
    }
  }

  /**
    Places `x` in front of the first row whose key is not larger, so that rows
    with equal keys keep their relative order.
  */
  function Insert<T(!new)>(x: T, s: seq<T>, key: T -> int): (r: seq<T>)
    requires SortedDesc(s, key)
    ensures SortedDesc(r, key)
    ensures multiset(r) == multiset(s) + multiset{x}
    ensures forall y :: y in r <==> y == x || y in s
  {
    if s == [] || key(x) >= key(s[0]) then
      assert s != [] ==> s[0] in s;
      ConsSorted(x, s, key);
      [x] + s
    else
      TailOfSorted(s, key);
      var rest := Insert(x, s[1..], key);
      ConsSorted(s[0], rest, key);
      assert s == [s[0]] + s[1..];
      [s[0]] + rest
  }

  /** A stable sort of `s` by descending key. */
  function SortDesc<T(!new)>(s: seq<T>, key: T -> int): (r: seq<T>)
    ensures SortedDesc(r, key)
    ensures multiset(r) == multiset(s)
  {
    if s == [] then []
    else
      assert s == [s[0]] + s[1..];
      Insert(s[0], SortDesc(s[1..], key), key)
  }

  /** A contiguous slice of a sorted listing is sorted. */
  lemma SliceOfSorted<T(!new)>(s: seq<T>, key: T -> int, lo: nat, hi: nat)
    requires SortedDesc(s, key) && lo <= hi <= |s|
    ensures SortedDesc(s[lo..hi], key)
  {
    forall i, j | 0 <= i < j < hi - lo ensures key(s[lo..hi][i]) >= key(s[lo..hi][j]) {
      assert s[lo..hi][i] == s[lo + i] && s[lo..hi][j] == s[lo + j];
    }
  }
}
