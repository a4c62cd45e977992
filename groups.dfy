/** `groupby` on the genre column: the rows of each genre, their count
    (`value_counts`), mean rating (`mean`) and total review count (`sum`),
    and the most frequent genre (`mode()[0]`). Genres are assumed present
    (pandas' `groupby` silently drops missing keys). */
module Groups {
  import opened Seqs
  import opened Text
  import opened Records
  import opened Ranking

  /** The genre column. */
  function Genres(df: seq<AppRecord>): (gs: seq<string>)
    ensures |gs| == |df|
    ensures forall i :: 0 <= i < |df| ==> gs[i] == df[i].genre
  {
    seq(|df|, i requires 0 <= i < |df| => df[i].genre)
  }

  function GenreMask(g: string): AppRecord -> bool {
    (r: AppRecord) => r.genre == g
  }

  /** The rows of genre `g`, in table order. */
  function RowsOf(df: seq<AppRecord>, g: string): seq<AppRecord> {
    Filter(df, GenreMask(g))
  }

  function ReviewCount(r: AppRecord): int {
    r.reviews
  }

  function One(r: AppRecord): int {
    1
  }

  /** The distinct genres in ascending order: the group keys of `groupby`,
      and `sorted(df[genre].unique())`. */
  function SortedGenres(df: seq<AppRecord>): (gs: seq<string>)
    ensures StrictlyAscending(gs) && NoDuplicates(gs)
    ensures forall i :: 0 <= i < |df| ==> df[i].genre in gs
    ensures forall i :: 0 <= i < |gs| ==> gs[i] in Genres(df)
  {
    var column := Genres(df);
    var unique := Distinct(column);
    var gs := SortStrings(unique);
    SameMembers(gs, unique);
    SameMembers(unique, gs);
    AscendingHasNoDuplicates(gs);
    gs
  }

  /** One row of the aggregated table. */
  datatype GenreSummary = GenreSummary(genre: string, count: nat, meanRating: real, totalReviews: int)

  function CountOf(s: GenreSummary): int {
    s.count
  }

  function TotalOf(s: GenreSummary): int {
    s.totalReviews
  }

  function CountKey(s: GenreSummary): real {
    s.count as real
  }

  function MeanKey(s: GenreSummary): real {
    s.meanRating
  }

  function TotalKey(s: GenreSummary): real {
    s.totalReviews as real
  }

  function GenreOf(s: GenreSummary): string {
    s.genre
  }

  /** The aggregates of one genre that occurs in the table. */
  function Summarize(df: seq<AppRecord>, g: string): (s: GenreSummary)
    requires g in Genres(df)
    ensures s.genre == g && s.count == |RowsOf(df, g)| > 0
    ensures s.meanRating == SumReal(RowsOf(df, g), RatingKey) / s.count as real
    ensures s.totalReviews == SumInt(RowsOf(df, g), ReviewCount)
  {
    var rows := RowsOf(df, g);
    RowsOfNonEmpty(df, g);
    GenreSummary(g, |rows|, SumReal(rows, RatingKey) / |rows| as real, SumInt(rows, ReviewCount))
  }

  lemma RowsOfNonEmpty(df: seq<AppRecord>, g: string)
    requires g in Genres(df)
    ensures |RowsOf(df, g)| > 0
  {
    var i :| 0 <= i < |df| && Genres(df)[i] == g;
    assert GenreMask(g)(df[i]);
    FilterComplete(df, GenreMask(g));
    assert df[i] in RowsOf(df, g);
  }

  lemma ScaleBounds(m: real, n: real, lo: real, hi: real)
    requires n > 0.0 && lo * n <= m * n <= hi * n
    ensures lo <= m <= hi
  {
  }

  /** One summary row per key of `gs`, in the order of `gs`. */
  function SummariesOf(df: seq<AppRecord>, gs: seq<string>): (r: seq<GenreSummary>)
    requires forall i :: 0 <= i < |gs| ==> gs[i] in Genres(df)
    ensures |r| == |gs|
    ensures forall i :: 0 <= i < |gs| ==> r[i] == Summarize(df, gs[i])
    decreases |gs|
  {
    if gs == [] then [] else [Summarize(df, gs[0])] + SummariesOf(df, gs[1..])
  }

  /** `df.groupby(genre).agg(mean rating, sum of reviews)`, one row per genre
      in ascending genre order. */
  function Summaries(df: seq<AppRecord>): (r: seq<GenreSummary>)
    ensures |r| == |SortedGenres(df)|
    ensures forall i :: 0 <= i < |r| ==> r[i] == Summarize(df, SortedGenres(df)[i])
    ensures forall i :: 0 <= i < |r| ==> r[i].genre == SortedGenres(df)[i]
  {
    SummariesOf(df, SortedGenres(df))
  }

  /** Every genre of the table has exactly one summary row, the rows are
      ordered by genre, and each row aggregates exactly that genre's rows. */
  lemma SummariesCoverGenres(df: seq<AppRecord>)
    ensures DistinctBy(Summaries(df), GenreOf)
    ensures forall i, j :: 0 <= i < j < |Summaries(df)| ==> Less(Summaries(df)[i].genre, Summaries(df)[j].genre)
    ensures forall i :: 0 <= i < |df| ==> exists k :: 0 <= k < |Summaries(df)| && Summaries(df)[k].genre == df[i].genre
    ensures forall k :: 0 <= k < |Summaries(df)| ==> Summaries(df)[k].genre in Genres(df)
  {
    var gs := SortedGenres(df);
    var r := Summaries(df);
    GenreColumn(r, gs, df);
  }

  /** A table whose genre column is a strictly ascending list of the table's
      genres that covers them all. */
  lemma GenreColumn(r: seq<GenreSummary>, gs: seq<string>, df: seq<AppRecord>)
    requires |r| == |gs| && forall i :: 0 <= i < |r| ==> r[i].genre == gs[i]
    requires StrictlyAscending(gs)
    requires forall i :: 0 <= i < |df| ==> df[i].genre in gs
    requires forall i :: 0 <= i < |gs| ==> gs[i] in Genres(df)
    ensures DistinctBy(r, GenreOf)
    ensures forall i, j :: 0 <= i < j < |r| ==> Less(r[i].genre, r[j].genre)
    ensures forall i :: 0 <= i < |df| ==> exists k :: 0 <= k < |r| && r[k].genre == df[i].genre
    ensures forall k :: 0 <= k < |r| ==> r[k].genre in Genres(df)
  {
    AscendingHasNoDuplicates(gs);
    forall i | 0 <= i < |df| ensures exists k :: 0 <= k < |r| && r[k].genre == df[i].genre {
      var k :| 0 <= k < |gs| && gs[k] == df[i].genre;
      assert 0 <= k < |r| && r[k].genre == df[i].genre;
    }
    assert forall i :: 0 <= i < |df| ==> exists k :: 0 <= k < |r| && r[k].genre == df[i].genre;
  }

  /** Any reordering of the summary table still aggregates each genre's rows
      and still has a row for every genre of the table. */
  lemma ReorderedSummaries(df: seq<AppRecord>, r: seq<GenreSummary>)
    requires multiset(r) == multiset(Summaries(df))
    ensures forall x :: x in r ==> x.genre in Genres(df) && x == Summarize(df, x.genre)
    ensures forall i :: 0 <= i < |df| ==> exists k :: 0 <= k < |r| && r[k].genre == df[i].genre
  {
    forall x | x in r ensures x.genre in Genres(df) && x == Summarize(df, x.genre) {
      SummaryRowIsAggregate(df, x);
    }
    forall i | 0 <= i < |df| ensures exists k :: 0 <= k < |r| && r[k].genre == df[i].genre {
      GenreHasSummaryRow(df, r, i);
    }
  }

  lemma SummaryRowIsAggregate(df: seq<AppRecord>, x: GenreSummary)
    requires x in multiset(Summaries(df))
    ensures x.genre in Genres(df) && x == Summarize(df, x.genre)
  {
    var table := Summaries(df);
    var gs := SortedGenres(df);
    var k :| 0 <= k < |table| && table[k] == x;
    assert x == Summarize(df, gs[k]);
  }

  lemma GenreHasSummaryRow(df: seq<AppRecord>, r: seq<GenreSummary>, i: int)
    requires multiset(r) == multiset(Summaries(df))
    requires 0 <= i < |df|
    ensures exists k :: 0 <= k < |r| && r[k].genre == df[i].genre
  {
    var table := Summaries(df);
    var gs := SortedGenres(df);
    var j :| 0 <= j < |gs| && gs[j] == df[i].genre;
    assert table[j].genre == df[i].genre;
    assert table[j] in multiset(r);
    var k :| 0 <= k < |r| && r[k] == table[j];
  }

  /** The summary table reordered by any key still has at most one row per
      genre, and each row aggregates exactly that genre's rows (that every
      genre has a row is `ReorderedSummaries`). */
  lemma SortedSummariesOnePerGenre(df: seq<AppRecord>, key: GenreSummary -> real)
    ensures DistinctBy(SortDesc(Summaries(df), key), GenreOf)
    ensures forall x :: x in SortDesc(Summaries(df), key) ==> x.genre in Genres(df) && x == Summarize(df, x.genre)
  {
    SummariesCoverGenres(df);
    SortDescKeepsDistinct(Summaries(df), key, GenreOf);
    ReorderedSummaries(df, SortDesc(Summaries(df), key));
  }

  /** Reordered by any key, the per-genre review totals still add up to the
      table's review total and the per-genre counts to its number of rows. */
  lemma SortedSummariesAddUp(df: seq<AppRecord>, key: GenreSummary -> real)
    ensures SumInt(SortDesc(Summaries(df), key), TotalOf) == SumInt(df, ReviewCount)
    ensures SumInt(SortDesc(Summaries(df), key), CountOf) == |df|
  {
    SummaryTotalsAddUp(df);
    SortDescKeepsSum(Summaries(df), key, TotalOf);
    SortDescKeepsSum(Summaries(df), key, CountOf);
  }

  /** Sum over the keys `gs` of the per-group totals of `f`. */
  function GroupedSum(gs: seq<string>, df: seq<AppRecord>, f: AppRecord -> int): int
    decreases |gs|
  {
    if gs == [] then 0 else SumInt(RowsOf(df, gs[0]), f) + GroupedSum(gs[1..], df, f)
  }

  lemma SumIntCons<T>(x: T, s: seq<T>, f: T -> int)
    ensures SumInt([x] + s, f) == f(x) + SumInt(s, f)
  {
    assert ([x] + s)[1..] == s;
  }

  /** Adding one row to the table adds its value to exactly the group of its genre. */
  lemma {:induction false} GroupedSumCons(gs: seq<string>, r: AppRecord, rest: seq<AppRecord>, f: AppRecord -> int)
    requires NoDuplicates(gs)
    ensures GroupedSum(gs, [r] + rest, f) == GroupedSum(gs, rest, f) + (if r.genre in gs then f(r) else 0)
    decreases |gs|
  {
    if gs != [] {
      var t := gs[1..];
      assert gs == [gs[0]] + t;
      assert NoDuplicates(t) by {
        forall i, j | 0 <= i < j < |t| ensures t[i] != t[j] {
          assert t[i] == gs[i + 1] && t[j] == gs[j + 1];
        }
      }
      GroupedSumCons(t, r, rest, f);
      FilterCons(r, rest, GenreMask(gs[0]));
      if r.genre == gs[0] {
        SumIntCons(r, RowsOf(rest, gs[0]), f);
        assert r.genre !in t by {
          forall j | 0 <= j < |t| ensures t[j] != gs[0] {
            assert t[j] == gs[j + 1];
          }
        }
      }
    }
  }

  /** The groups partition the table: summed over all genres, the per-genre
      totals of any column add up to the column's total. */
  lemma {:induction false} GroupSumsAddUp(gs: seq<string>, df: seq<AppRecord>, f: AppRecord -> int)
    requires NoDuplicates(gs)
    requires forall i :: 0 <= i < |df| ==> df[i].genre in gs
    ensures GroupedSum(gs, df, f) == SumInt(df, f)
    decreases |df|
  {
    if df == [] {
      EmptyGroups(gs, f);
    } else {
      var rest := df[1..];
      assert df == [df[0]] + rest;
      assert forall i :: 0 <= i < |rest| ==> rest[i] == df[i + 1];
      GroupSumsAddUp(gs, rest, f);
      GroupedSumCons(gs, df[0], rest, f);
    }
  }

  lemma {:induction false} EmptyGroups(gs: seq<string>, f: AppRecord -> int)
    ensures GroupedSum(gs, [], f) == 0
    decreases |gs|
  {
    if gs != [] {
      EmptyGroups(gs[1..], f);
    }
  }

  lemma {:induction false} SummariesOfSums(df: seq<AppRecord>, gs: seq<string>)
    requires forall i :: 0 <= i < |gs| ==> gs[i] in Genres(df)
    ensures SumInt(SummariesOf(df, gs), TotalOf) == GroupedSum(gs, df, ReviewCount)
    ensures SumInt(SummariesOf(df, gs), CountOf) == GroupedSum(gs, df, One)
    decreases |gs|
  {
    if gs != [] {
      SummariesOfSums(df, gs[1..]);
      SumOneIsLength(RowsOf(df, gs[0]));
      SumIntCons(Summarize(df, gs[0]), SummariesOf(df, gs[1..]), TotalOf);
      SumIntCons(Summarize(df, gs[0]), SummariesOf(df, gs[1..]), CountOf);
    }
  }

  lemma {:induction false} SumOneIsLength(s: seq<AppRecord>)
    ensures SumInt(s, One) == |s|
    decreases |s|
  {
    if s != [] {
      SumOneIsLength(s[1..]);
    }
  }

  /** The per-genre review totals add up to the table's review total, and the
      per-genre counts add up to the number of rows. */
  lemma SummaryTotalsAddUp(df: seq<AppRecord>)
    ensures SumInt(Summaries(df), TotalOf) == SumInt(df, ReviewCount)
    ensures SumInt(Summaries(df), CountOf) == |df|
  {
    var gs := SortedGenres(df);
    SummariesOfSums(df, gs);
    GroupSumsAddUp(gs, df, ReviewCount);
    GroupSumsAddUp(gs, df, One);
    SumOneIsLength(df);
  }

  /** When every rating lies in [0, 5], so does every genre's mean. */
  lemma MeanWithinRatingRange(df: seq<AppRecord>, g: string)
    requires g in Genres(df)
    requires forall i :: 0 <= i < |df| ==> 0.0 <= df[i].rating <= 5.0
    ensures 0.0 <= Summarize(df, g).meanRating <= 5.0
  {
    var rows := RowsOf(df, g);
    FilterMembership(df, GenreMask(g));
    forall i | 0 <= i < |rows| ensures 0.0 <= RatingKey(rows[i]) <= 5.0 {
      assert rows[i] in rows;
    }
    GroupMeanBounded(df, g);
  }

  lemma GroupMeanBounded(df: seq<AppRecord>, g: string)
    requires g in Genres(df)
    requires forall i :: 0 <= i < |RowsOf(df, g)| ==> 0.0 <= RatingKey(RowsOf(df, g)[i]) <= 5.0
    ensures 0.0 <= Summarize(df, g).meanRating <= 5.0
  {
    RowsOfNonEmpty(df, g);
    MeanOfBounded(RowsOf(df, g), RatingKey, 0.0, 5.0);
  }

  /** The mean of values that all lie in [lo, hi] lies in [lo, hi]. */
  lemma MeanOfBounded<T>(rows: seq<T>, f: T -> real, lo: real, hi: real)
    requires |rows| > 0
    requires forall i :: 0 <= i < |rows| ==> lo <= f(rows[i]) <= hi
    ensures lo <= SumReal(rows, f) / |rows| as real <= hi
  {
    SumRealBounds(rows, f, lo, hi);
    MeanBounds(SumReal(rows, f), |rows|, lo, hi);
  }

  lemma MeanBounds(total: real, n: nat, lo: real, hi: real)
    requires n > 0 && lo * n as real <= total <= hi * n as real
    ensures lo <= total / n as real <= hi
  {
    var m := total / n as real;
    assert m * n as real == total;
    ScaleBounds(m, n as real, lo, hi);
  }

  /** `Series.mean()` of a whole column: its sum over its length. pandas
      gives NaN for an empty column; that is `None` here. */
  function Mean<T>(s: seq<T>, f: T -> real): (m: Option<real>)
    ensures m.None? <==> |s| == 0
    ensures m.Some? ==> m.value * |s| as real == SumReal(s, f)
  {
    if |s| == 0 then None else Some(SumReal(s, f) / |s| as real)
  }

  /** When every value of a non-empty column lies in [lo, hi], so does its mean. */
  lemma MeanWithin<T>(s: seq<T>, f: T -> real, lo: real, hi: real)
    requires |s| > 0
    requires forall i :: 0 <= i < |s| ==> lo <= f(s[i]) <= hi
    ensures lo <= Mean(s, f).value <= hi
  {
    MeanOfBounded(s, f, lo, hi);
  }

  /** Number of rows of genre `g` (`value_counts()[g]`). */
  function GenreCount(df: seq<AppRecord>, g: string): nat {
    |RowsOf(df, g)|
  }

  /** The first of the most frequent keys of an ascending key list, i.e. the
      smallest of the most frequent genres. */
  function Mode(df: seq<AppRecord>, gs: seq<string>): (m: string)
    requires |gs| > 0 && StrictlyAscending(gs)
    ensures m in gs
    ensures forall i :: 0 <= i < |gs| ==> GenreCount(df, gs[i]) <= GenreCount(df, m)
    ensures forall i :: 0 <= i < |gs| && GenreCount(df, gs[i]) == GenreCount(df, m) ==> gs[i] == m || Less(m, gs[i])
    decreases |gs|
  {
    if |gs| == 1 then gs[0]
    else
      var t := gs[1..];
      assert forall i :: 0 <= i < |t| ==> t[i] == gs[i + 1];
      var best := Mode(df, t);
      if GenreCount(df, gs[0]) >= GenreCount(df, best) then gs[0] else best
  }
}
