/** `sort_values(by=key, ascending=False).head(k)`. pandas' default sort is not
    stable, so nothing is promised about the order of rows with equal keys:
    the contracts say only that the result is ordered by the key, holds the
    same rows, and (for the top k) that no row left out beats a row kept. */
module Ranking {
  import opened Seqs

  /** Non-increasing in `key`. */
  predicate SortedDesc<T>(s: seq<T>, key: T -> real) {
    forall i, j :: 0 <= i < j < |s| ==> key(s[i]) >= key(s[j])
  }

  /** Rows whose projections are pairwise different. */
  predicate DistinctBy<T, U(==)>(s: seq<T>, proj: T -> U) {
    forall i, j :: 0 <= i < j < |s| ==> proj(s[i]) != proj(s[j])
  }

  /** Put `x` into a list ordered by `key`, before the first row it is not below. */
  function InsertDesc<T>(x: T, s: seq<T>, key: T -> real): (r: seq<T>)
    requires SortedDesc(s, key)
    ensures SortedDesc(r, key)
    ensures multiset(r) == multiset(s) + multiset{x}
    decreases |s|
  {
    if s == [] || key(x) >= key(s[0]) then
      ConsSortedDesc(x, s, key);
      [x] + s
    else
      var t := s[1..];
      assert s == [s[0]] + t;
      assert forall j :: 0 <= j < |t| ==> key(t[j]) <= key(s[0]) by {
        forall j | 0 <= j < |t| ensures key(t[j]) <= key(s[0]) {
          assert t[j] == s[j + 1];
        }
      }
      var rest := InsertDesc(x, t, key);
      BoundKept(key(s[0]), rest, t, x, key);
      ConsSortedDesc(s[0], rest, key);
      [s[0]] + rest
  }

  /** A row not below any row of a sorted list can go in front of it. */
  lemma ConsSortedDesc<T>(h: T, t: seq<T>, key: T -> real)
    requires SortedDesc(t, key)
    requires t != [] ==> key(h) >= key(t[0])
    ensures SortedDesc([h] + t, key)
  {
    var r := [h] + t;
    forall i, j | 0 <= i < j < |r| ensures key(r[i]) >= key(r[j]) {
      if i == 0 {
        assert r[j] == t[j - 1];
        if j > 1 {
          assert key(t[0]) >= key(t[j - 1]);
        }
      } else {
        assert r[i] == t[i - 1] && r[j] == t[j - 1];
      }
    }
  }

  /** An upper bound of the rows of `pool` and of `x` bounds every row of a
      rearrangement of them. */
  lemma BoundKept<T>(bound: real, rest: seq<T>, pool: seq<T>, x: T, key: T -> real)
    requires multiset(rest) == multiset(pool) + multiset{x}
    requires forall j :: 0 <= j < |pool| ==> key(pool[j]) <= bound
    requires key(x) <= bound
    ensures forall j :: 0 <= j < |rest| ==> key(rest[j]) <= bound
  {
    forall j | 0 <= j < |rest| ensures key(rest[j]) <= bound {
      assert rest[j] in multiset(rest);
      if rest[j] != x {
        assert rest[j] in multiset(pool);
        var k :| 0 <= k < |pool| && pool[k] == rest[j];
      }
    }
  }

  /** The rows of `s`, reordered so that `key` is non-increasing. */
  function SortDesc<T>(s: seq<T>, key: T -> real): (r: seq<T>)
    ensures SortedDesc(r, key)
    ensures multiset(r) == multiset(s)
    ensures |r| == |s|
    decreases |s|
  {
    if s == [] then []
    else
      assert s == [s[0]] + s[1..];
      InsertDesc(s[0], SortDesc(s[1..], key), key)
  }

  lemma {:induction false} InsertDescKeepsSum<T>(x: T, s: seq<T>, key: T -> real, f: T -> int)
    requires SortedDesc(s, key)
    ensures SumInt(InsertDesc(x, s, key), f) == f(x) + SumInt(s, f)
    decreases |s|
  {
    if s != [] && key(x) < key(s[0]) {
      InsertDescKeepsSum(x, s[1..], key, f);
      var r := InsertDesc(x, s, key);
      assert r[1..] == InsertDesc(x, s[1..], key);
    }
  }

  /** Reordering rows does not change a column total. */
  lemma {:induction false} SortDescKeepsSum<T>(s: seq<T>, key: T -> real, f: T -> int)
    ensures SumInt(SortDesc(s, key), f) == SumInt(s, f)
    decreases |s|
  {
    if s != [] {
      SortDescKeepsSum(s[1..], key, f);
      InsertDescKeepsSum(s[0], SortDesc(s[1..], key), key, f);
    }
  }

  lemma {:induction false} InsertDescKeepsDistinct<T, U>(x: T, s: seq<T>, key: T -> real, proj: T -> U)
    requires SortedDesc(s, key) && DistinctBy(s, proj)
    requires forall i :: 0 <= i < |s| ==> proj(s[i]) != proj(x)
    ensures DistinctBy(InsertDesc(x, s, key), proj)
    decreases |s|
  {
    if s == [] || key(x) >= key(s[0]) {
      ConsDistinct(x, s, proj);
    } else {
      var t := s[1..];
      assert forall i :: 0 <= i < |t| ==> t[i] == s[i + 1];
      InsertDescKeepsDistinct(x, t, key, proj);
      var rest := InsertDesc(x, t, key);
      ProjectionAvoided(proj(s[0]), rest, t, x, proj);
      ConsDistinct(s[0], rest, proj);
    }
  }

  /** A row whose projection no row of `t` shares can go in front of `t`. */
  lemma ConsDistinct<T, U>(h: T, t: seq<T>, proj: T -> U)
    requires DistinctBy(t, proj)
    requires forall j :: 0 <= j < |t| ==> proj(t[j]) != proj(h)
    ensures DistinctBy([h] + t, proj)
  {
    var r := [h] + t;
    forall i, j | 0 <= i < j < |r| ensures proj(r[i]) != proj(r[j]) {
      assert r[j] == t[j - 1];
      if i > 0 {
        assert r[i] == t[i - 1];
      }
    }
  }

  /** A projection value avoided by the rows of `pool` and by `x` is avoided
      by every row of a rearrangement of them. */
  lemma ProjectionAvoided<T, U>(v: U, rest: seq<T>, pool: seq<T>, x: T, proj: T -> U)
    requires multiset(rest) == multiset(pool) + multiset{x}
    requires forall j :: 0 <= j < |pool| ==> proj(pool[j]) != v
    requires proj(x) != v
    ensures forall j :: 0 <= j < |rest| ==> proj(rest[j]) != v
  {
    forall j | 0 <= j < |rest| ensures proj(rest[j]) != v {
      assert rest[j] in multiset(rest);
      if rest[j] != x {
        assert rest[j] in multiset(pool);
        var k :| 0 <= k < |pool| && pool[k] == rest[j];
      }
    }
  }

  /** Reordering rows keeps them pairwise distinct in any projection. */
  lemma {:induction false} SortDescKeepsDistinct<T, U>(s: seq<T>, key: T -> real, proj: T -> U)
    requires DistinctBy(s, proj)
    ensures DistinctBy(SortDesc(s, key), proj)
    decreases |s|
  {
    if s != [] {
      var t := s[1..];
      assert forall i :: 0 <= i < |t| ==> t[i] == s[i + 1];
      SortDescKeepsDistinct(t, key, proj);
      var sorted := SortDesc(t, key);
      assert forall i :: 0 <= i < |sorted| ==> sorted[i] in multiset(t);
      assert forall i :: 0 <= i < |sorted| ==> proj(sorted[i]) != proj(s[0]) by {
        forall i | 0 <= i < |sorted| ensures proj(sorted[i]) != proj(s[0]) {
          assert sorted[i] in t;
        }
      }
      InsertDescKeepsDistinct(s[0], sorted, key, proj);
    }
  }

  /** `head(k)`: the first `k` rows, or all of them when there are fewer. */
  function Head<T>(s: seq<T>, k: nat): (r: seq<T>)
    ensures |r| == if |s| < k then |s| else k
    ensures forall i :: 0 <= i < |r| ==> r[i] == s[i]
    ensures IsSubsequence(r, s)
  {
    PrefixIsSubsequence(s, if |s| < k then |s| else k);
    s[..if |s| < k then |s| else k]
  }

  lemma {:induction false} PrefixIsSubsequence<T>(s: seq<T>, n: nat)
    requires n <= |s|
    ensures IsSubsequence(s[..n], s)
    decreases n
  {
    if n > 0 {
      PrefixIsSubsequence(s[1..], n - 1);
      assert s[..n][1..] == s[1..][..n - 1];
    }
  }

  /** `sort_values(by=key, ascending=False).head(k)`: the first `k` rows of
      the sorted table. */
  function TopK<T>(s: seq<T>, key: T -> real, k: nat): (r: seq<T>)
    ensures |r| == if |s| < k then |s| else k
    ensures forall i :: 0 <= i < |r| ==> r[i] == SortDesc(s, key)[i]
    ensures SortedDesc(r, key)
    ensures multiset(r) <= multiset(s)
  {
    var r := Head(SortDesc(s, key), k);
    FrontOfSorted(SortDesc(s, key), r, key);
    r
  }

  /** The front rows of a sorted table are sorted and are rows of the table. */
  lemma FrontOfSorted<T>(t: seq<T>, r: seq<T>, key: T -> real)
    requires SortedDesc(t, key)
    requires |r| <= |t| && forall i :: 0 <= i < |r| ==> r[i] == t[i]
    ensures SortedDesc(r, key)
    ensures multiset(r) <= multiset(t)
  {
    assert r == t[..|r|];
    assert t == r + t[|r|..];
  }

  /** Every row of the top k is a row of the input. */
  lemma TopKRowsComeFromInput<T>(s: seq<T>, key: T -> real, k: nat)
    ensures forall x :: x in TopK(s, key, k) ==> x in s
  {
    var r := TopK(s, key, k);
    forall x | x in r ensures x in s {
      assert x in multiset(r);
    }
  }

  /** No row left out of the top k has a larger key than a row kept. */
  lemma TopKIsTop<T>(s: seq<T>, key: T -> real, k: nat, x: T, y: T)
    requires x in multiset(s) - multiset(TopK(s, key, k))
    requires y in TopK(s, key, k)
    ensures key(x) <= key(y)
  {
    var sorted := SortDesc(s, key);
    var n := if |s| < k then |s| else k;
    var i := LeftOutIsInTail(s, key, k, x);
    var j :| 0 <= j < n && sorted[..n][j] == y;
    assert sorted[j] == y;
  }

  /** A row left out of the top k sits after position k of the sorted rows. */
  lemma LeftOutIsInTail<T>(s: seq<T>, key: T -> real, k: nat, x: T) returns (i: nat)
    requires x in multiset(s) - multiset(TopK(s, key, k))
    ensures (if |s| < k then |s| else k) <= i < |SortDesc(s, key)| && SortDesc(s, key)[i] == x
  {
    var sorted := SortDesc(s, key);
    var n := if |s| < k then |s| else k;
    assert TopK(s, key, k) == sorted[..n];
    i := InDifferenceIsInTail(s, sorted, n, x);
  }

  /** What a rearrangement `t` of `s` holds beyond its first `n` rows lies
      after position `n`. */
  lemma InDifferenceIsInTail<T>(s: seq<T>, t: seq<T>, n: nat, x: T) returns (i: nat)
    requires multiset(s) == multiset(t) && n <= |t|
    requires x in multiset(s) - multiset(t[..n])
    ensures n <= i < |t| && t[i] == x
  {
    assert t == t[..n] + t[n..];
    assert multiset(t) == multiset(t[..n]) + multiset(t[n..]);
    assert x in t[n..];
    var m :| 0 <= m < |t[n..]| && t[n..][m] == x;
    i := n + m;
  }
}
