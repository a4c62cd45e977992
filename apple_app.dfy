/** The App Store dashboard over three parquet tables (overview, top apps,
    explorer): a genre summary of the overview table, and the same sidebar
    filter (minimum rating, price type, title search) applied to the top-apps
    table, ranked by review count, and to the explorer table. */
module AppleApp {
  import opened Seqs
  import opened Text
  import opened Records
  import opened Ranking
  import opened Groups

  /** Mask `df['formattedPrice'] == 'Free'`. */
  function FreeMask(): AppRecord -> bool {
    (r: AppRecord) => r.price == "Free"
  }

  /** Mask `df['formattedPrice'] != 'Free'`. */
  function PaidMask(): AppRecord -> bool {
    (r: AppRecord) => r.price != "Free"
  }

  predicate PriceAccepts(mode: PriceMode, price: string) {
    match mode
    case All => true
    case Free => price == "Free"
    case Paid => price != "Free"
  }

  /** A row meets every sidebar criterion; an empty search term is no criterion. */
  predicate Selected(r: AppRecord, c: Criteria) {
    && r.rating >= c.minRating
    && PriceAccepts(c.price, r.price)
    && (c.search == "" || MatchesIgnoringCase(r.title, c.search))
  }

  function SelectedMask(c: Criteria): AppRecord -> bool {
    (r: AppRecord) => Selected(r, c)
  }

  /** The successive masks applied to `top_df` (and, identically, to
      `explorer_df`): rating, then price type, then the title search when
      the search box is not empty. */
  function FilterApps(df: seq<AppRecord>, c: Criteria): seq<AppRecord> {
    var byRating := Filter(df, RatingMask(c.minRating));
    var byPrice :=
      match c.price
      case All => byRating
      case Free => Filter(byRating, FreeMask())
      case Paid => Filter(byRating, PaidMask());
    if c.search != "" then Filter(byPrice, TitleMask(c.search)) else byPrice
  }

  /** The successive masks select exactly the rows that meet all criteria at once. */
  lemma FilterAppsIsOneMask(df: seq<AppRecord>, c: Criteria)
    ensures FilterApps(df, c) == Filter(df, SelectedMask(c))
  {
    var rating := RatingMask(c.minRating);
    var price: AppRecord -> bool := (r: AppRecord) => r.rating >= c.minRating && PriceAccepts(c.price, r.price);
    match c.price {
      case All =>
        FilterExt(df, rating, price);
      case Free =>
        FilterFuse(df, rating, FreeMask(), price);
      case Paid =>
        FilterFuse(df, rating, PaidMask(), price);
    }
    if c.search != "" {
      FilterFuse(df, price, TitleMask(c.search), SelectedMask(c));
    } else {
      FilterExt(df, price, SelectedMask(c));
    }
  }

  /** An empty search term occurs in every title, so the title mask would
      keep every row: skipping it when the search box is empty (the
      `if search_term:` guard) changes nothing. */
  lemma EmptySearchKeepsAll(df: seq<AppRecord>)
    ensures Filter(df, TitleMask("")) == df
  {
    forall x | x in df ensures TitleMask("")(x) {
      EmptyTermMatches(Lower(x.title));
    }
    FilterKeepsAll(df, TitleMask(""));
  }

  /** The filter only removes rows: the result is a subsequence of the table
      (rows unchanged, relative order kept), every kept row meets every
      criterion, and no row that meets them all is dropped. */
  lemma FilterAppsSelects(df: seq<AppRecord>, c: Criteria)
    ensures IsSubsequence(FilterApps(df, c), df)
    ensures forall x :: x in FilterApps(df, c) <==> x in df && Selected(x, c)
  {
    FilterAppsIsOneMask(df, c);
    FilterMembership(df, SelectedMask(c));
  }

  /** Filtering an already filtered table with the same criteria changes nothing. */
  lemma FilterAppsIdempotent(df: seq<AppRecord>, c: Criteria)
    ensures FilterApps(FilterApps(df, c), c) == FilterApps(df, c)
  {
    FilterAppsIsOneMask(df, c);
    FilterAppsIsOneMask(FilterApps(df, c), c);
    FilterIdempotent(df, SelectedMask(c));
  }

  /** With the rating threshold and search term held fixed, the "Free" and
      "Paid" results split the "All" result: no row is in both, and together
      they hold each row of it exactly as often. */
  lemma FreeAndPaidSplitAll(df: seq<AppRecord>, minRating: real, search: string)
    ensures var all := FilterApps(df, Criteria(minRating, All, search));
            var free := FilterApps(df, Criteria(minRating, Free, search));
            var paid := FilterApps(df, Criteria(minRating, Paid, search));
            && multiset(free) + multiset(paid) == multiset(all)
            && |free| + |paid| == |all|
            && forall x :: !(x in free && x in paid)
  {
    var cAll := Criteria(minRating, All, search);
    var cFree := Criteria(minRating, Free, search);
    var cPaid := Criteria(minRating, Paid, search);
    FilterAppsIsOneMask(df, cAll);
    FilterAppsIsOneMask(df, cFree);
    FilterAppsIsOneMask(df, cPaid);
    var all := Filter(df, SelectedMask(cAll));
    FilterFuse(df, SelectedMask(cAll), FreeMask(), SelectedMask(cFree));
    FilterFuse(df, SelectedMask(cAll), PaidMask(), SelectedMask(cPaid));
    FilterPartition(all, FreeMask(), PaidMask());
  }

  /** `top_apps`: the ten filtered rows with the most reviews, most first. */
  function TopApps(topDf: seq<AppRecord>, c: Criteria): (r: seq<AppRecord>)
    ensures |r| <= 10
    ensures |r| == 10 || |r| == |FilterApps(topDf, c)|
    ensures SortedDesc(r, ReviewKey)
    ensures multiset(r) <= multiset(FilterApps(topDf, c))
    ensures forall x :: x in r ==> x in topDf && Selected(x, c)
  {
    var filtered := FilterApps(topDf, c);
    FilterAppsSelects(topDf, c);
    TopKRowsComeFromInput(filtered, ReviewKey, 10);
    TopK(filtered, ReviewKey, 10)
  }

  /** No filtered row left out of `top_apps` has more reviews than a row shown. */
  lemma TopAppsAreTheMostReviewed(topDf: seq<AppRecord>, c: Criteria, x: AppRecord, y: AppRecord)
    requires x in multiset(FilterApps(topDf, c)) - multiset(TopApps(topDf, c))
    requires y in TopApps(topDf, c)
    ensures x.reviews <= y.reviews
  {
    TopKIsTop(FilterApps(topDf, c), ReviewKey, 10, x, y);
  }

  /** `genre_summary`: per genre of the overview table, mean rating and total
      review count, ordered by total review count, most first. */
  function GenreSummaryTable(overview: seq<AppRecord>): (r: seq<Groups.GenreSummary>)
    ensures SortedDesc(r, TotalKey)
    ensures multiset(r) == multiset(Summaries(overview))
  {
    SortDesc(Summaries(overview), TotalKey)
  }

  /** The genre summary has exactly one row per distinct genre of the
      overview table, each row aggregates exactly that genre's records, and
      the per-genre review totals add up to the table's review total. */
  lemma GenreSummaryOneRowPerGenre(overview: seq<AppRecord>)
    ensures DistinctBy(GenreSummaryTable(overview), GenreOf)
    ensures forall i :: 0 <= i < |overview| ==>
              exists k :: 0 <= k < |GenreSummaryTable(overview)| && GenreSummaryTable(overview)[k].genre == overview[i].genre
    ensures forall x :: x in GenreSummaryTable(overview) ==> x.genre in Genres(overview) && x == Summarize(overview, x.genre)
    ensures SumInt(GenreSummaryTable(overview), TotalOf) == SumInt(overview, ReviewCount)
  {
    SortedSummariesOnePerGenre(overview, TotalKey);
    SortedSummariesAddUp(overview, TotalKey);
    ReorderedSummaries(overview, GenreSummaryTable(overview));
  }

  /** `genre_summary.head(10)`: the genre summary's first ten rows, or all of
      them when there are fewer genres. */
  function GenreSummaryShown(overview: seq<AppRecord>): (r: seq<Groups.GenreSummary>)
    ensures |r| == if |Summaries(overview)| < 10 then |Summaries(overview)| else 10
    ensures forall i :: 0 <= i < |r| ==> r[i] == GenreSummaryTable(overview)[i]
    ensures SortedDesc(r, TotalKey)
    ensures multiset(r) <= multiset(Summaries(overview))
  {
    TopK(Summaries(overview), TotalKey, 10)
  }

  /** No genre left out of the ten shown has a larger review total than a genre shown. */
  lemma ShownGenresAreMostReviewed(overview: seq<AppRecord>, x: Groups.GenreSummary, y: Groups.GenreSummary)
    requires x in multiset(Summaries(overview)) - multiset(GenreSummaryShown(overview))
    requires y in GenreSummaryShown(overview)
    ensures x.totalReviews <= y.totalReviews
  {
    TopKIsTop(Summaries(overview), TotalKey, 10, x, y);
  }
}
