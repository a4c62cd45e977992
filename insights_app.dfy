/** The "Apple App Store Insights" dashboard with a genre multiselect
    (`app.py`): KPIs and per-genre aggregates over the whole table, and a
    sidebar filter (selected genres, minimum rating, title search) whose
    result is ranked by rating. */
module InsightsApp {
  import opened Seqs
  import opened Text
  import opened Records
  import opened Ranking
  import opened Groups

  /** The "Average Rating" figure before rounding: the mean rating of the
      whole table; `None` for an empty table, where pandas gives NaN. */
  function AverageRating(df: seq<AppRecord>): (m: Option<real>)
    ensures m.None? <==> |df| == 0
    ensures m.Some? ==> m.value * |df| as real == SumReal(df, RatingKey)
  {
    Mean(df, RatingKey)
  }

  /** When every rating lies in [0, 5], so does the "Average Rating" figure. */
  lemma AverageRatingInRange(df: seq<AppRecord>)
    requires |df| > 0
    requires forall i :: 0 <= i < |df| ==> 0.0 <= df[i].rating <= 5.0
    ensures 0.0 <= AverageRating(df).value <= 5.0
  {
    MeanWithin(df, RatingKey, 0.0, 5.0);
  }

  /** Mask `df['predicted_genre'].isin(selected_genres)`. */
  function GenreSetMask(selected: seq<string>): AppRecord -> bool {
    (r: AppRecord) => r.genre in selected
  }

  /** The multiselect's default: every genre of the table, in order of first
      appearance (`df['predicted_genre'].unique()`). */
  function DefaultGenres(df: seq<AppRecord>): seq<string> {
    Distinct(Genres(df))
  }

  /** A row meets every sidebar criterion; an empty search term is no criterion. */
  predicate Selected(r: AppRecord, selected: seq<string>, minRating: real, search: string) {
    && r.genre in selected
    && r.rating >= minRating
    && (search == "" || MatchesIgnoringCase(r.title, search))
  }

  function SelectedMask(selected: seq<string>, minRating: real, search: string): AppRecord -> bool {
    (r: AppRecord) => Selected(r, selected, minRating, search)
  }

  /** `filtered_df`: the genre mask, then the rating mask, then the title
      search when the search box is not empty. */
  function FilterInsights(df: seq<AppRecord>, selected: seq<string>, minRating: real, search: string): seq<AppRecord> {
    var byGenre := Filter(df, GenreSetMask(selected));
    var byRating := Filter(byGenre, RatingMask(minRating));
    if search != "" then Filter(byRating, TitleMask(search)) else byRating
  }

  /** The successive masks select exactly the rows that meet all criteria at once. */
  lemma FilterInsightsIsOneMask(df: seq<AppRecord>, selected: seq<string>, minRating: real, search: string)
    ensures FilterInsights(df, selected, minRating, search) == Filter(df, SelectedMask(selected, minRating, search))
  {
    var genreAndRating: AppRecord -> bool := (r: AppRecord) => r.genre in selected && r.rating >= minRating;
    FilterFuse(df, GenreSetMask(selected), RatingMask(minRating), genreAndRating);
    if search != "" {
      FilterFuse(df, genreAndRating, TitleMask(search), SelectedMask(selected, minRating, search));
    } else {
      FilterExt(df, genreAndRating, SelectedMask(selected, minRating, search));
    }
  }

  /** The filter only removes rows (the result is a subsequence of the table),
      every kept row has a selected genre, the minimum rating and, for a
      non-empty term, a title containing it ignoring case; and no row meeting
      all of these is dropped. */
  lemma FilterInsightsSelects(df: seq<AppRecord>, selected: seq<string>, minRating: real, search: string)
    ensures IsSubsequence(FilterInsights(df, selected, minRating, search), df)
    ensures forall x :: x in FilterInsights(df, selected, minRating, search) <==>
              x in df && Selected(x, selected, minRating, search)
  {
    FilterInsightsIsOneMask(df, selected, minRating, search);
    FilterMembership(df, SelectedMask(selected, minRating, search));
  }

  /** With the default selection (every genre) the genre mask keeps every row. */
  lemma DefaultSelectionIsNoOp(df: seq<AppRecord>)
    ensures Filter(df, GenreSetMask(DefaultGenres(df))) == df
  {
    var column := Genres(df);
    forall x | x in df ensures GenreSetMask(DefaultGenres(df))(x) {
      var i :| 0 <= i < |df| && df[i] == x;
      assert column[i] == x.genre;
    }
    FilterKeepsAll(df, GenreSetMask(DefaultGenres(df)));
  }

  /** With the default selection the result depends on the rating and the
      search term alone. */
  lemma DefaultSelectionFiltersRatingAndTitle(df: seq<AppRecord>, minRating: real, search: string)
    ensures FilterInsights(df, DefaultGenres(df), minRating, search) ==
            if search != "" then Filter(Filter(df, RatingMask(minRating)), TitleMask(search))
            else Filter(df, RatingMask(minRating))
  {
    DefaultSelectionIsNoOp(df);
  }

  /** `genre_counts`: `value_counts()` of the genre column, one row per genre
      with its number of rows (the `count` field), most first. */
  function GenreCounts(df: seq<AppRecord>): (r: seq<GenreSummary>)
    ensures SortedDesc(r, CountKey)
    ensures multiset(r) == multiset(Summaries(df))
  {
    SortDesc(Summaries(df), CountKey)
  }

  /** `genre_counts` has exactly one entry per distinct genre, each entry
      counts exactly that genre's rows, and the counts add up to `len(df)`. */
  lemma GenreCountsOneEntryPerGenre(df: seq<AppRecord>)
    ensures DistinctBy(GenreCounts(df), GenreOf)
    ensures forall i :: 0 <= i < |df| ==>
              exists k :: 0 <= k < |GenreCounts(df)| && GenreCounts(df)[k].genre == df[i].genre
    ensures forall x :: x in GenreCounts(df) ==> x.genre in Genres(df) && x.count == GenreCount(df, x.genre)
    ensures SumInt(GenreCounts(df), CountOf) == |df|
  {
    SortedSummariesOnePerGenre(df, CountKey);
    SortedSummariesAddUp(df, CountKey);
    ReorderedSummaries(df, GenreCounts(df));
  }

  /** `avg_ratings`: per genre, in ascending genre order, the mean rating of
      that genre's rows of the whole table (the sidebar criteria are not
      among its arguments). */
  function AvgRatings(df: seq<AppRecord>): (r: seq<GenreSummary>)
    ensures forall i, j :: 0 <= i < j < |r| ==> Less(r[i].genre, r[j].genre)
    ensures forall k :: 0 <= k < |r| ==> r[k].genre in Genres(df) && r[k] == Summarize(df, r[k].genre)
  {
    var r := Summaries(df);
    SummariesCoverGenres(df);
    r
  }

  /** Every genre of the table has an entry in `avg_ratings`. */
  lemma AvgRatingsCoverGenres(df: seq<AppRecord>)
    ensures forall i :: 0 <= i < |df| ==> exists k :: 0 <= k < |AvgRatings(df)| && AvgRatings(df)[k].genre == df[i].genre
  {
    var r := AvgRatings(df);
    var table := Summaries(df);
    assert r == table;
    SummariesCoverGenres(df);
    forall i | 0 <= i < |df| ensures exists k :: 0 <= k < |r| && r[k].genre == df[i].genre {
      var k :| 0 <= k < |table| && table[k].genre == df[i].genre;
    }
  }

  /** `df['predicted_genre'].mode()[0]`: the smallest of the most frequent
      genres. On an empty table pandas' `mode()` is empty and indexing it
      fails; that error is `None` here. */
  function MostCommonGenre(df: seq<AppRecord>): (m: Option<string>)
    ensures m.None? <==> |df| == 0
    ensures m.Some? ==> m.value in Genres(df)
    ensures m.Some? ==> forall i :: 0 <= i < |df| ==> GenreCount(df, df[i].genre) <= GenreCount(df, m.value)
    ensures m.Some? ==> forall i :: 0 <= i < |df| && GenreCount(df, df[i].genre) == GenreCount(df, m.value) ==>
              df[i].genre == m.value || Less(m.value, df[i].genre)
  {
    if |df| == 0 then None
    else
      var gs := SortedGenres(df);
      assert df[0].genre in gs;
      var mode := Mode(df, gs);
      assert forall i :: 0 <= i < |df| ==> exists j :: 0 <= j < |gs| && gs[j] == df[i].genre;
      Some(mode)
  }

  /** `top_apps`: the ten filtered rows with the highest rating, highest first. */
  function TopApps(df: seq<AppRecord>, selected: seq<string>, minRating: real, search: string): (r: seq<AppRecord>)
    ensures |r| <= 10
    ensures |r| == 10 || |r| == |FilterInsights(df, selected, minRating, search)|
    ensures SortedDesc(r, RatingKey)
    ensures multiset(r) <= multiset(FilterInsights(df, selected, minRating, search))
    ensures forall x :: x in r ==> x in df && Selected(x, selected, minRating, search)
  {
    var filtered := FilterInsights(df, selected, minRating, search);
    FilterInsightsSelects(df, selected, minRating, search);
    TopKRowsComeFromInput(filtered, RatingKey, 10);
    TopK(filtered, RatingKey, 10)
  }

  /** No filtered row left out of `top_apps` is rated higher than a row shown. */
  lemma TopAppsAreTheBestRated(df: seq<AppRecord>, selected: seq<string>, minRating: real, search: string, x: AppRecord, y: AppRecord)
    requires x in multiset(FilterInsights(df, selected, minRating, search)) - multiset(TopApps(df, selected, minRating, search))
    requires y in TopApps(df, selected, minRating, search)
    ensures x.rating <= y.rating
  {
    TopKIsTop(FilterInsights(df, selected, minRating, search), RatingKey, 10, x, y);
  }
}
