/** Generic sequence operations behind the dashboards' boolean-mask filtering
    (`df[mask]`): keep the rows a predicate accepts, in their original order. */
module Seqs {

  /** `a` can be obtained from `b` by deleting elements: the kept rows are
      unchanged and keep their relative order. */
  predicate IsSubsequence<T(==)>(a: seq<T>, b: seq<T>)
    decreases |b|
  {
    if a == [] then true
    else if b == [] then false
    else (a[0] == b[0] && IsSubsequence(a[1..], b[1..])) || IsSubsequence(a, b[1..])
  }

  lemma {:induction false} SubsequenceTransitive<T>(a: seq<T>, b: seq<T>, c: seq<T>)
    requires IsSubsequence(a, b) && IsSubsequence(b, c)
    ensures IsSubsequence(a, c)
    decreases |a| + |b| + |c|
  {
    if a == [] {
    } else if IsSubsequence(b, c[1..]) {
      SubsequenceTransitive(a, b, c[1..]);
    } else if a[0] == b[0] && IsSubsequence(a[1..], b[1..]) {
      SubsequenceTransitive(a[1..], b[1..], c[1..]);
    } else {
      SubsequenceTransitive(a, b[1..], c[1..]);
    }
  }

  /** Boolean-mask selection: the rows of `s` that `p` accepts. */
  function Filter<T>(s: seq<T>, p: T -> bool): (r: seq<T>)
    ensures |r| <= |s|
    ensures forall i :: 0 <= i < |r| ==> p(r[i])
    ensures IsSubsequence(r, s)
    ensures multiset(r) <= multiset(s)
    decreases |s|
  {
    if s == [] then []
    else
      var rest := Filter(s[1..], p);
      var r := if p(s[0]) then [s[0]] + rest else rest;
      FilterStepSound(s, p, rest, r);
      FilterStepMultiset(s, p, rest, r);
      r
  }

  /** The kept rows of one step of `Filter` are accepted rows. */
  lemma FilterStepSound<T>(s: seq<T>, p: T -> bool, rest: seq<T>, r: seq<T>)
    requires s != [] && r == if p(s[0]) then [s[0]] + rest else rest
    requires forall i :: 0 <= i < |rest| ==> p(rest[i])
    ensures forall i :: 0 <= i < |r| ==> p(r[i])
  {
    forall i | 0 <= i < |r| ensures p(r[i]) {
      if p(s[0]) && i > 0 {
        assert r[i] == rest[i - 1];
      }
    }
  }

  /** `Filter` drops no accepted row. */
  lemma {:induction false} FilterComplete<T>(s: seq<T>, p: T -> bool)
    ensures forall i :: 0 <= i < |s| && p(s[i]) ==> s[i] in Filter(s, p)
    decreases |s|
  {
    if s != [] {
      FilterComplete(s[1..], p);
      FilterStepComplete(s, p, Filter(s[1..], p), Filter(s, p));
    }
  }

  /** One step of `Filter` drops no accepted row of `s`. */
  lemma FilterStepComplete<T>(s: seq<T>, p: T -> bool, rest: seq<T>, r: seq<T>)
    requires s != [] && r == if p(s[0]) then [s[0]] + rest else rest
    requires forall i :: 0 <= i < |s[1..]| && p(s[1..][i]) ==> s[1..][i] in rest
    ensures forall i :: 0 <= i < |s| && p(s[i]) ==> s[i] in r
  {
    forall i | 0 <= i < |s| && p(s[i]) ensures s[i] in r {
      if i > 0 {
        assert s[i] == s[1..][i - 1];
      }
    }
  }

  /** One step of `Filter` keeps the rows of `s` in order and no more often. */
  lemma FilterStepMultiset<T>(s: seq<T>, p: T -> bool, rest: seq<T>, r: seq<T>)
    requires s != [] && r == if p(s[0]) then [s[0]] + rest else rest
    requires |rest| <= |s[1..]| && IsSubsequence(rest, s[1..]) && multiset(rest) <= multiset(s[1..])
    ensures |r| <= |s| && IsSubsequence(r, s) && multiset(r) <= multiset(s)
  {
    assert s == [s[0]] + s[1..];
    assert multiset(s) == multiset{s[0]} + multiset(s[1..]);
    if p(s[0]) {
      assert r[1..] == rest;
    }
  }

  /** The one-step unfolding of `Filter` on a non-empty sequence. */
  lemma FilterCons<T>(x: T, s: seq<T>, p: T -> bool)
    ensures Filter([x] + s, p) == (if p(x) then [x] + Filter(s, p) else Filter(s, p))
  {
    assert ([x] + s)[1..] == s;
  }

  /** A mask every row passes leaves the table as it is. */
  lemma {:induction false} FilterKeepsAll<T>(s: seq<T>, p: T -> bool)
    requires forall x :: x in s ==> p(x)
    ensures Filter(s, p) == s
    decreases |s|
  {
    if s != [] {
      FilterKeepsAll(s[1..], p);
      FilterCons(s[0], s[1..], p);
      assert [s[0]] + s[1..] == s;
    }
  }

  /** Two successive masks select the same rows as their conjunction. */
  lemma {:induction false} FilterFuse<T>(s: seq<T>, p: T -> bool, q: T -> bool, pq: T -> bool)
    requires forall x :: pq(x) == (p(x) && q(x))
    ensures Filter(Filter(s, p), q) == Filter(s, pq)
    decreases |s|
  {
    if s != [] {
      FilterFuse(s[1..], p, q, pq);
      if p(s[0]) {
        FilterCons(s[0], Filter(s[1..], p), q);
      }
    }
  }

  /** The order in which two masks are applied does not matter. */
  lemma FilterCommutes<T>(s: seq<T>, p: T -> bool, q: T -> bool)
    ensures Filter(Filter(s, p), q) == Filter(Filter(s, q), p)
  {
    var pq := x => p(x) && q(x);
    FilterFuse(s, p, q, pq);
    FilterFuse(s, q, p, pq);
  }

  /** Applying the same mask twice is the same as applying it once. */
  lemma FilterIdempotent<T>(s: seq<T>, p: T -> bool)
    ensures Filter(Filter(s, p), p) == Filter(s, p)
  {
    FilterFuse(s, p, p, p);
  }

  /** Masks that agree on every row select the same rows. */
  lemma {:induction false} FilterExt<T>(s: seq<T>, p: T -> bool, q: T -> bool)
    requires forall x :: x in s ==> p(x) == q(x)
    ensures Filter(s, p) == Filter(s, q)
    decreases |s|
  {
    if s != [] {
      assert s[0] in s;
      assert forall x :: x in s[1..] ==> x in s;
      FilterExt(s[1..], p, q);
    }
  }

  /** A row is selected exactly when it is a row of `s` that `p` accepts. */
  lemma FilterMembership<T>(s: seq<T>, p: T -> bool)
    ensures forall x :: x in Filter(s, p) <==> x in s && p(x)
  {
    var r := Filter(s, p);
    FilterComplete(s, p);
    forall x | x in r ensures x in s && p(x) {
      var i :| 0 <= i < |r| && r[i] == x;
      assert x in multiset(r);
    }
    forall x | x in s && p(x) ensures x in r {
      var i :| 0 <= i < |s| && s[i] == x;
    }
  }

  /** The complement of a mask (`~mask`). */
  function Not<T>(p: T -> bool): T -> bool {
    x => !p(x)
  }

  /** A mask and its complement split the table: every row goes to exactly
      one side, and together they hold every row exactly as often as `s`. */
  lemma FilterPartition<T>(s: seq<T>, p: T -> bool, q: T -> bool)
    requires forall x :: q(x) == !p(x)
    ensures multiset(Filter(s, p)) + multiset(Filter(s, q)) == multiset(s)
    ensures |Filter(s, p)| + |Filter(s, q)| == |s|
    ensures forall x :: !(x in Filter(s, p) && x in Filter(s, q))
  {
    FilterExt(s, q, Not(p));
    FilterSplitsMultiset(s, p);
    assert |multiset(Filter(s, p)) + multiset(Filter(s, q))| == |multiset(s)|;
    FilterMembership(s, p);
    FilterMembership(s, q);
  }

  lemma {:induction false} FilterSplitsMultiset<T>(s: seq<T>, p: T -> bool)
    ensures multiset(Filter(s, p)) + multiset(Filter(s, Not(p))) == multiset(s)
    decreases |s|
  {
    if s != [] {
      var h, t := s[0], s[1..];
      FilterSplitsMultiset(t, p);
      FilterCons(h, t, p);
      FilterCons(h, t, Not(p));
      SplitStep(h, t, Filter(t, p), Filter(t, Not(p)), Filter([h] + t, p), Filter([h] + t, Not(p)), p(h));
      assert [h] + t == s;
    }
  }

  /** Sending one more row to one of two sides keeps the sides a split. */
  lemma SplitStep<T>(h: T, t: seq<T>, a: seq<T>, b: seq<T>, a': seq<T>, b': seq<T>, toA: bool)
    requires multiset(a) + multiset(b) == multiset(t)
    requires a' == (if toA then [h] + a else a) && b' == (if toA then b else [h] + b)
    ensures multiset(a') + multiset(b') == multiset([h] + t)
  {
    assert multiset([h] + t) == multiset{h} + multiset(t);
    if toA {
      assert multiset(a') == multiset{h} + multiset(a);
    } else {
      assert multiset(b') == multiset{h} + multiset(b);
    }
  }

  /** Number of elements of `s` that `p` accepts. */
  function Count<T>(s: seq<T>, p: T -> bool): (n: nat)
    ensures n <= |s|
    ensures n == |Filter(s, p)|
    decreases |s|
  {
    if s == [] then 0 else (if p(s[0]) then 1 else 0) + Count(s[1..], p)
  }

  /** Sum of an integer-valued column. */
  function SumInt<T>(s: seq<T>, f: T -> int): int
    decreases |s|
  {
    if s == [] then 0 else f(s[0]) + SumInt(s[1..], f)
  }

  /** Sum of a real-valued column. */
  function SumReal<T>(s: seq<T>, f: T -> real): real
    decreases |s|
  {
    if s == [] then 0.0 else f(s[0]) + SumReal(s[1..], f)
  }

  /** A column whose entries all lie in [lo, hi] sums to between lo*n and hi*n. */
  lemma {:induction false} SumRealBounds<T>(s: seq<T>, f: T -> real, lo: real, hi: real)
    requires forall i :: 0 <= i < |s| ==> lo <= f(s[i]) <= hi
    ensures lo * |s| as real <= SumReal(s, f) <= hi * |s| as real
    decreases |s|
  {
    if s != [] {
      var t := s[1..];
      assert forall i :: 0 <= i < |t| ==> t[i] == s[i + 1];
      SumRealBounds(t, f, lo, hi);
      var n := |t| as real;
      var rest := SumReal(t, f);
      assert SumReal(s, f) == f(s[0]) + rest;
      assert lo * n <= rest <= hi * n;
      assert lo <= f(s[0]) <= hi;
      calc {
        lo * |s| as real;
        lo * (n + 1.0);
        lo * n + lo;
      }
      calc {
        hi * |s| as real;
        hi * (n + 1.0);
        hi * n + hi;
      }
    }
  }

  /** No value occurs twice. */
  predicate NoDuplicates<T(==)>(s: seq<T>) {
    forall i, j :: 0 <= i < j < |s| ==> s[i] != s[j]
  }

  /** Rearrangements have the same members. */
  lemma SameMembers<T>(a: seq<T>, b: seq<T>)
    requires multiset(a) == multiset(b)
    ensures forall i :: 0 <= i < |a| ==> a[i] in b
  {
    forall i | 0 <= i < |a| ensures a[i] in b {
      assert a[i] in multiset(b);
    }
  }

  /** The distinct values of `s` (`Series.unique`). The contract leaves the
      order of the result open: `isin` only tests membership. */
  function Distinct<T(==)>(s: seq<T>): (r: seq<T>)
    ensures NoDuplicates(r)
    ensures forall i :: 0 <= i < |r| ==> r[i] in s
    ensures forall i :: 0 <= i < |s| ==> s[i] in r
    decreases |s|
  {
    if s == [] then []
    else
      var init := Distinct(s[..|s| - 1]);
      assert s == s[..|s| - 1] + [s[|s| - 1]];
      if s[|s| - 1] in init then init else init + [s[|s| - 1]]
  }
}
