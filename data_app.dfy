/** The "Apple App Store Insights Dashboard" with a genre selectbox
    (`data/app.py`): a genre-or-"All" filter and a rating filter on a copy of
    the table, the mean rating per genre, and the ten best-rated filtered rows.
    Tables are values here, so the base table is never changed by filtering. */
module DataApp {
  import opened Seqs
  import opened Text
  import opened Records
  import opened Ranking
  import opened Groups

  /** The selectbox options `["All"] + sorted(df['predicted_genre'].unique())`. */
  function GenreOptions(df: seq<AppRecord>): (r: seq<string>)
    ensures |r| > 0 && r[0] == "All"
    ensures StrictlyAscending(r[1..]) && NoDuplicates(r[1..])
    ensures forall i :: 0 <= i < |df| ==> df[i].genre in r[1..]
    ensures forall i :: 1 <= i < |r| ==> r[i] in Genres(df)
  {
    var r := ["All"] + SortedGenres(df);
    assert r[1..] == SortedGenres(df);
    r
  }

  /** `filtered_df`: a copy of the table, the genre mask unless the choice is
      "All", then the rating mask. */
  function FilterByGenre(df: seq<AppRecord>, genre: string, minRating: real): seq<AppRecord> {
    var copy := df;
    var byGenre := if genre != "All" then Filter(copy, GenreMask(genre)) else copy;
    Filter(byGenre, RatingMask(minRating))
  }

  /** The filter only removes rows (the result is a subsequence of the table);
      a kept row has the chosen genre, or any genre for "All", and the minimum
      rating; and no such row is dropped. */
  lemma FilterByGenreSelects(df: seq<AppRecord>, genre: string, minRating: real)
    ensures IsSubsequence(FilterByGenre(df, genre, minRating), df)
    ensures forall x :: x in FilterByGenre(df, genre, minRating) <==>
              x in df && (genre == "All" || x.genre == genre) && x.rating >= minRating
  {
    if genre != "All" {
      var byGenre := Filter(df, GenreMask(genre));
      SubsequenceTransitive(FilterByGenre(df, genre, minRating), byGenre, df);
      FilterMembership(df, GenreMask(genre));
      FilterMembership(byGenre, RatingMask(minRating));
    } else {
      FilterMembership(df, RatingMask(minRating));
    }
  }

  /** Rating first and genre second gives the same rows in the same order. */
  lemma GenreAndRatingFiltersCommute(df: seq<AppRecord>, genre: string, minRating: real)
    ensures FilterByGenre(df, genre, minRating) ==
            if genre != "All" then Filter(Filter(df, RatingMask(minRating)), GenreMask(genre))
            else Filter(df, RatingMask(minRating))
  {
    FilterCommutes(df, GenreMask(genre), RatingMask(minRating));
  }

  /** `avg_ratings`: the mean rating per genre of the whole table, ordered by
      mean rating, highest first. */
  function AvgRatingsDesc(df: seq<AppRecord>): (r: seq<GenreSummary>)
    ensures SortedDesc(r, MeanKey)
    ensures multiset(r) == multiset(Summaries(df))
  {
    SortDesc(Summaries(df), MeanKey)
  }

  /** `avg_ratings` has exactly one entry per distinct genre, each the mean
      rating of exactly that genre's rows. */
  lemma AvgRatingsOneEntryPerGenre(df: seq<AppRecord>)
    ensures DistinctBy(AvgRatingsDesc(df), GenreOf)
    ensures forall i :: 0 <= i < |df| ==>
              exists k :: 0 <= k < |AvgRatingsDesc(df)| && AvgRatingsDesc(df)[k].genre == df[i].genre
    ensures forall x :: x in AvgRatingsDesc(df) ==>
              && x.genre in Genres(df)
              && x.count == |RowsOf(df, x.genre)| > 0
              && x.meanRating == SumReal(RowsOf(df, x.genre), RatingKey) / x.count as real
  {
    var r := AvgRatingsDesc(df);
    SortedSummariesOnePerGenre(df, MeanKey);
    assert DistinctBy(r, GenreOf);
    ReorderedSummaries(df, r);
    forall x | x in r
      ensures x.genre in Genres(df) && x.count == |RowsOf(df, x.genre)| > 0
      ensures x.meanRating == SumReal(RowsOf(df, x.genre), RatingKey) / x.count as real
    {
      assert x.genre in Genres(df) && x == Summarize(df, x.genre);
    }
  }

  /** `top_apps`: the ten filtered rows with the highest rating, highest first. */
  function TopApps(df: seq<AppRecord>, genre: string, minRating: real): (r: seq<AppRecord>)
    ensures |r| <= 10
    ensures |r| == 10 || |r| == |FilterByGenre(df, genre, minRating)|
    ensures SortedDesc(r, RatingKey)
    ensures multiset(r) <= multiset(FilterByGenre(df, genre, minRating))
    ensures forall x :: x in r ==> x in df && (genre == "All" || x.genre == genre) && x.rating >= minRating
  {
    var filtered := FilterByGenre(df, genre, minRating);
    FilterByGenreSelects(df, genre, minRating);
    TopKRowsComeFromInput(filtered, RatingKey, 10);
    TopK(filtered, RatingKey, 10)
  }

  /** No filtered row left out of `top_apps` is rated higher than a row shown. */
  lemma TopAppsAreTheBestRated(df: seq<AppRecord>, genre: string, minRating: real, x: AppRecord, y: AppRecord)
    requires x in multiset(FilterByGenre(df, genre, minRating)) - multiset(TopApps(df, genre, minRating))
    requires y in TopApps(df, genre, minRating)
    ensures x.rating <= y.rating
  {
    TopKIsTop(FilterByGenre(df, genre, minRating), RatingKey, 10, x, y);
  }
}
