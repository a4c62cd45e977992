/** String operations the dashboards rely on: the case-insensitive search of
    `Series.str.contains(term, case=False)` and Python's ordering of strings
    (used by `sorted` and by `groupby`, which orders its keys). */
module Text {
  import opened Seqs

  /** ASCII case folding of one character. */
  function LowerChar(c: char): char {
    if 'A' <= c <= 'Z' then (c as int + 32) as char else c
  }

  function Lower(s: string): (r: string)
    ensures |r| == |s|
    ensures forall i :: 0 <= i < |s| ==> r[i] == LowerChar(s[i])
  {
    seq(|s|, i requires 0 <= i < |s| => LowerChar(s[i]))
  }

  /** Lower-casing twice is lower-casing once. */
  lemma LowerIdempotent(s: string)
    ensures Lower(Lower(s)) == Lower(s)
  {
  }

  /** `needle` occurs in `hay` starting at position `i`. */
  predicate OccursAt(hay: string, needle: string, i: int) {
    0 <= i && i + |needle| <= |hay| && hay[i..i + |needle|] == needle
  }

  /** Plain substring test (Python's `needle in hay`). */
  function Contains(hay: string, needle: string): (b: bool)
    ensures b <==> exists i :: OccursAt(hay, needle, i)
    decreases |hay|
  {
    if |needle| > |hay| then false
    else if hay[..|needle|] == needle then
      assert OccursAt(hay, needle, 0);
      true
    else
      var b := Contains(hay[1..], needle);
      assert forall i :: OccursAt(hay[1..], needle, i) ==> OccursAt(hay, needle, i + 1) by {
        forall i | OccursAt(hay[1..], needle, i) ensures OccursAt(hay, needle, i + 1) {
          assert hay[1..][i..i + |needle|] == hay[i + 1..i + 1 + |needle|];
        }
      }
      assert forall i :: OccursAt(hay, needle, i) ==> i >= 1 && OccursAt(hay[1..], needle, i - 1) by {
        forall i | OccursAt(hay, needle, i) ensures i >= 1 && OccursAt(hay[1..], needle, i - 1) {
          assert hay[1..][i - 1..i - 1 + |needle|] == hay[i..i + |needle|];
        }
      }
      b
  }

  /** The empty term occurs in every text. */
  lemma EmptyTermMatches(hay: string)
    ensures Contains(hay, "")
  {
    assert OccursAt(hay, "", 0);
  }

  /** `text.str.contains(term, case=False)`, read as a plain substring test. */
  predicate MatchesIgnoringCase(text: string, term: string) {
    Contains(Lower(text), Lower(term))
  }

  /** The search does not depend on the case in which the term is typed. */
  lemma MatchIgnoresTermCase(text: string, term: string)
    ensures MatchesIgnoringCase(text, term) == MatchesIgnoringCase(text, Lower(term))
  {
    LowerIdempotent(term);
  }

  /** Python's string order: lexicographic by code point, a proper prefix first. */
  predicate Less(a: string, b: string)
    decreases |a|
  {
    if a == [] then b != []
    else b != [] && (a[0] < b[0] || (a[0] == b[0] && Less(a[1..], b[1..])))
  }

  lemma {:induction false} LessIrreflexive(a: string)
    ensures !Less(a, a)
    decreases |a|
  {
    if a != [] {
      LessIrreflexive(a[1..]);
    }
  }

  lemma {:induction false} LessTransitive(a: string, b: string, c: string)
    requires Less(a, b) && Less(b, c)
    ensures Less(a, c)
    decreases |a|
  {
    if a != [] && a[0] == b[0] && b[0] == c[0] {
      LessTransitive(a[1..], b[1..], c[1..]);
    }
  }

  lemma {:induction false} LessTotal(a: string, b: string)
    requires a != b
    ensures Less(a, b) || Less(b, a)
    decreases |a|
  {
    if a != [] && b != [] && a[0] == b[0] {
      assert a == [a[0]] + a[1..] && b == [b[0]] + b[1..];
      LessTotal(a[1..], b[1..]);
    }
  }

  /** Every pair of entries is in strictly ascending order. */
  predicate StrictlyAscending(s: seq<string>) {
    forall i, j :: 0 <= i < j < |s| ==> Less(s[i], s[j])
  }

  lemma AscendingHasNoDuplicates(s: seq<string>)
    requires StrictlyAscending(s)
    ensures NoDuplicates(s)
  {
    forall i, j | 0 <= i < j < |s| ensures s[i] != s[j] {
      if s[i] == s[j] {
        LessIrreflexive(s[i]);
      }
    }
  }

  /** Insert `x` into an ascending list, after every entry that precedes it. */
  function Insert(x: string, s: seq<string>): (r: seq<string>)
    requires StrictlyAscending(s) && x !in s
    ensures StrictlyAscending(r)
    ensures multiset(r) == multiset(s) + multiset{x}
    decreases |s|
  {
    if s == [] || Less(x, s[0]) then
      ConsAscending(x, s);
      [x] + s
    else
      LessTotal(x, s[0]);
      var t := s[1..];
      assert s == [s[0]] + t;
      assert forall j :: 0 <= j < |t| ==> Less(s[0], t[j]) by {
        forall j | 0 <= j < |t| ensures Less(s[0], t[j]) {
          assert t[j] == s[j + 1];
        }
      }
      var rest := Insert(x, t);
      LowerBoundKept(s[0], rest, t, x);
      ConsAscending(s[0], rest);
      [s[0]] + rest
  }

  /** An entry that precedes the first entry of an ascending list can go in front of it. */
  lemma ConsAscending(h: string, t: seq<string>)
    requires StrictlyAscending(t)
    requires t != [] ==> Less(h, t[0])
    ensures StrictlyAscending([h] + t)
  {
    var r := [h] + t;
    forall i, j | 0 <= i < j < |r| ensures Less(r[i], r[j]) {
      assert r[j] == t[j - 1];
      if i > 0 {
        assert r[i] == t[i - 1];
      } else if j > 1 {
        LessTransitive(h, t[0], t[j - 1]);
      }
    }
  }

  /** An entry preceding every entry of `pool` and `x` precedes every entry
      of a rearrangement of them. */
  lemma LowerBoundKept(bound: string, rest: seq<string>, pool: seq<string>, x: string)
    requires multiset(rest) == multiset(pool) + multiset{x}
    requires forall j :: 0 <= j < |pool| ==> Less(bound, pool[j])
    requires Less(bound, x)
    ensures forall j :: 0 <= j < |rest| ==> Less(bound, rest[j])
  {
    forall j | 0 <= j < |rest| ensures Less(bound, rest[j]) {
      assert rest[j] in multiset(rest);
      if rest[j] != x {
        assert rest[j] in multiset(pool);
        var k :| 0 <= k < |pool| && pool[k] == rest[j];
      }
    }
  }

  /** `sorted(xs)` for a list without duplicates. */
  function SortStrings(s: seq<string>): (r: seq<string>)
    requires NoDuplicates(s)
    ensures StrictlyAscending(r)
    ensures multiset(r) == multiset(s)
    decreases |s|
  {
    if s == [] then []
    else
      var t := s[1..];
      assert s == [s[0]] + t;
      var rest := SortStrings(t);
      assert s[0] !in multiset(rest);
      Insert(s[0], rest)
  }
}
