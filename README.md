# App Store dashboards: filter, rank and aggregate

Four Streamlit dashboards over App Store metadata share one small piece of
logic, written inline in each script:

- a conjunctive row filter: minimum rating, price type (All / Free / Paid),
  an optional case-insensitive search term, and a genre choice (one genre,
  "All", or a set of genres);
- a top-ten ranking (`sort_values(ascending=False).head(10)`);
- per-genre aggregates (`groupby` mean rating and review total,
  `value_counts`, `mode`);
- in the Mac App Store dashboard, a cleaning step that coerces numeric
  columns, fills missing text with defaults and derives `is_paid`.

This project models that logic in Dafny and proves what the dashboards rely
on. Filters only remove rows and keep their order. A row survives exactly
when it meets every criterion. "Free" and "Paid" split the "All" result. A
top-ten list is sorted, comes from the filtered rows, and beats every row
left out. The aggregated tables have one row per genre, and their totals add
up to the table's totals.

Modules:

- `Seqs` (`seqs.dfy`): boolean-mask selection (`Filter`), subsequences,
  partitions by a mask and its complement, column sums.
- `Text` (`text.dfy`): ASCII lower-casing, substring search, and Python's
  string order with a sort for distinct strings.
- `Records` (`records.dfy`): the app record, the sidebar criteria, and the
  rating and title masks.
- `Ranking` (`ranking.dfy`): a descending insertion sort by a key, and
  `head(k)` over it.
- `Groups` (`groups.dfy`): `groupby` on the genre column, per-genre summaries
  and the mode.
- `Numeric` (`numeric.dfy`): the decimal reading behind
  `pd.to_numeric(errors='coerce')`.
- One module per dashboard:
  - `AppleApp` (`apple_app.dfy`) for `Apple-app.py`;
  - `MacApp` (`ma_app.dfy`) for `MA_app.py`;
  - `InsightsApp` (`insights_app.dfy`) for `app.py`;
  - `DataApp` (`data_app.dfy`) for `data/app.py`.

Tables are sequences of records. Every filter builds a new sequence. The one
exception is the Mac App Store cleaning, which overwrites columns of the
loaded table. There the table is the class `MacApp.MacFrame`, and the cleaning
is its method `BasicCleaning`.

`MA_app.py` contains an unresolved merge conflict, so as written it is not
valid Python. The model follows the HEAD side (lines 5-24), which fetches
the data set and runs the cleaning. The filter at lines 43-49 needs the
`is_paid` column that this side defines.

## Model

| member | source | states |
|---|---|---|
| Seqs.Filter | Apple-app.py:50 | A boolean mask keeps only accepted rows. The result is an order-preserving subsequence and a sub-multiset of the table. |
| Seqs.FilterComplete | Apple-app.py:50 | No row the mask accepts is dropped. |
| Seqs.FilterMembership | Apple-app.py:50-56 | A value is in the masked table exactly when it is a row of the table that the mask accepts. |
| Seqs.FilterFuse | Apple-app.py:50-56 | Two successive masks select the same rows, in the same order, as their conjunction. |
| Seqs.FilterCommutes | data/app.py:16-18 | The order in which two masks are applied does not change the result. |
| Seqs.FilterIdempotent | Apple-app.py:82-88 | Applying a mask twice is the same as applying it once. |
| Seqs.FilterKeepsAll | app.py:28 | A mask that accepts every row returns the table unchanged. |
| Seqs.FilterExt | Apple-app.py:50-56 | Masks that agree on every row select the same rows. |
| Seqs.FilterPartition | MA_app.py:45-47 | A mask and its complement split a table. Each row goes to exactly one side, and the sides' multisets and lengths add up to the table's. |
| Seqs.SubsequenceTransitive | data/app.py:15-18 | A subsequence of a subsequence is a subsequence, so chained masks keep the original order. |
| Seqs.Count | MA_app.py:34 | The number of accepted rows is at most the table length and equals the length of the masked table. |
| Seqs.Distinct | app.py:23 | `unique()`: no value occurs twice, and the result holds exactly the values of the column. |
| Seqs.SumRealBounds | app.py:49 | A column whose values all lie in [lo, hi] sums to between lo·n and hi·n. |
| Text.Lower | Apple-app.py:56 | Case folding keeps the length and folds each character on its own. |
| Text.LowerIdempotent | Apple-app.py:56 | Folding twice is folding once. |
| Text.Contains | Apple-app.py:56 | The substring test holds exactly when the term occurs at some position of the text. |
| Text.EmptyTermMatches | Apple-app.py:55-56 | The empty term occurs in every text. |
| Text.MatchIgnoresTermCase | Apple-app.py:56 | `case=False`: the search result does not depend on the case of the typed term. |
| Text.LessIrreflexive | data/app.py:11 | Python's string order is irreflexive. |
| Text.LessTransitive | data/app.py:11 | Python's string order is transitive. |
| Text.LessTotal | data/app.py:11 | Any two different strings are ordered one way or the other. |
| Text.AscendingHasNoDuplicates | data/app.py:11 | A strictly ascending list has no duplicates. |
| Text.Insert | data/app.py:11 | Inserting a new string into an ascending list keeps it ascending and adds exactly that string. |
| Text.SortStrings | data/app.py:11 | `sorted` of distinct strings is strictly ascending and a permutation of its input. |
| Ranking.InsertDesc | Apple-app.py:59 | Inserting a row into a list sorted by a key keeps it sorted and adds exactly that row. |
| Ranking.SortDesc | Apple-app.py:59 | `sort_values(ascending=False)`: the result is non-increasing in the key and a permutation of the input. |
| Ranking.SortDescKeepsSum | Apple-app.py:32 | Sorting does not change a column total. |
| Ranking.SortDescKeepsDistinct | Apple-app.py:32 | Sorting keeps rows pairwise distinct in any projection, such as the genre. |
| Ranking.Head | Apple-app.py:34 | `head(k)` is the first min(k, n) rows of its input, in order: row i of the result is row i of the input. |
| Ranking.TopK | Apple-app.py:59 | `sort_values(...).head(k)` is the first min(k, n) rows of the descending sort. It is non-increasing in the key and a sub-multiset of the input. |
| Ranking.TopKRowsComeFromInput | Apple-app.py:59 | Every row of the top k is a row of the input. |
| Ranking.TopKIsTop | Apple-app.py:59 | No row left out of the top k has a larger key than a row kept. |
| Groups.Genres | app.py:23 | The genre column has one entry per row, namely that row's genre. |
| Groups.SortedGenres | data/app.py:11 | The distinct genres in ascending order. Each row's genre is present once, and nothing else is. |
| Groups.Summarize | Apple-app.py:29-32 | One genre's aggregate: its row count (positive), its mean rating (the sum over its rows divided by the count), and its review total. |
| Groups.SummariesOf | Apple-app.py:29-32 | One summary row per given genre, in the given order. |
| Groups.Summaries | app.py:49 | `groupby(genre)`: one summary per distinct genre, in ascending genre order, each aggregating exactly that genre's rows. |
| Groups.SummariesCoverGenres | app.py:49 | The summary table has one row per genre: genres are distinct and ascending, every genre of the table appears, and no other genre does. |
| Groups.ReorderedSummaries | Apple-app.py:32 | Any reordering of the summary table still covers every genre, and each of its rows aggregates its own genre. |
| Groups.SortedSummariesOnePerGenre | Apple-app.py:29-32 | Sorted by any key, the summary table's genres stay pairwise distinct (at most one row per genre), and each row is its genre's aggregate. That every genre keeps a row is `Groups.ReorderedSummaries`. |
| Groups.SortedSummariesAddUp | Apple-app.py:29-32 | Sorted by any key, the per-genre review totals add up to the table's review total, and the per-genre counts add up to the row count. |
| Groups.GroupSumsAddUp | Apple-app.py:31 | The groups partition the table: over all genres, the per-genre sums of a column add up to the column's total. |
| Groups.SummaryTotalsAddUp | Apple-app.py:29-32 | The per-genre review totals add up to the table's review total, and the per-genre counts add up to the number of rows. |
| Groups.MeanWithinRatingRange | app.py:49 | When every rating lies in [0, 5], every genre's mean rating does too. |
| Groups.MeanOfBounded | app.py:49 | The mean of values that all lie in [lo, hi] lies in [lo, hi]. |
| Groups.Mean | app.py:18 | `mean()` of a column: undefined (`None`) exactly on an empty table, otherwise the value that times the row count gives the column total. |
| Groups.MeanWithin | app.py:18 | When every value lies in [lo, hi], so does the mean. |
| Groups.Mode | app.py:19 | The chosen genre is among the keys, no key is more frequent, and it is the smallest of the most frequent keys. |
| AppleApp.FilterApps | Apple-app.py:50-56 | The rating, price-type and title masks applied in turn, the search only for a non-empty term. The explorer tab applies the same masks at lines 82-88. It has no contract of its own. Its behaviour is stated by `AppleApp.FilterAppsIsOneMask`, `AppleApp.FilterAppsSelects` and `AppleApp.FilterAppsIdempotent`. |
| AppleApp.FilterAppsIsOneMask | Apple-app.py:50-56 | The rating, price and search masks applied in turn equal one mask requiring all criteria at once. |
| AppleApp.FilterAppsSelects | Apple-app.py:50-56 | The filter only removes rows and keeps their order. A row survives exactly when its rating is at least the minimum, its price matches the price type, and, for a non-empty term, its title contains the term ignoring case. |
| AppleApp.FilterAppsIdempotent | Apple-app.py:82-88 | Filtering an already filtered table with the same criteria changes nothing. |
| AppleApp.FreeAndPaidSplitAll | Apple-app.py:51-54 | With rating and search held fixed, the "Free" and "Paid" results are disjoint, and together they hold each row of the "All" result exactly as often. |
| AppleApp.TopApps | Apple-app.py:59 | At most ten rows, ten unless fewer passed the filter. Non-increasing in review count, a sub-multiset of the filtered rows, and each row meets every criterion. |
| AppleApp.EmptySearchKeepsAll | Apple-app.py:55-56 | An empty search term would keep every row, so skipping the title mask for an empty search box changes nothing. |
| AppleApp.TopAppsAreTheMostReviewed | Apple-app.py:59 | No filtered row left out of the top ten has more reviews than a row shown. |
| AppleApp.GenreSummaryTable | Apple-app.py:29-32 | The genre summary is non-increasing in review total and a permutation of the per-genre aggregates. |
| AppleApp.GenreSummaryOneRowPerGenre | Apple-app.py:29-32 | One row per distinct genre of the overview table. Each row is that genre's mean rating and review sum, and the review sums add up to the table's total. |
| AppleApp.GenreSummaryShown | Apple-app.py:32-34 | `genre_summary.head(10)`: the first ten rows of the genre summary in order, or all of them when there are fewer genres. They are non-increasing in review total and drawn from the per-genre aggregates. |
| AppleApp.ShownGenresAreMostReviewed | Apple-app.py:32-34 | No genre left out of the ten shown has a larger review total than a genre shown. |
| Numeric.DigitChar | MA_app.py:16 | A digit value below ten is written as the digit character that reads back as that value. |
| Numeric.PointIndex | MA_app.py:16 | Finds the first decimal point, or reports that there is none. |
| Numeric.ParseNumber | MA_app.py:16-17 | The reading of numeric text behind `to_numeric`: an optional sign, then digits with at most one decimal point. It has no contract of its own. What it reads is stated by `Numeric.ParseNatToString`, `Numeric.ParseNegative`, `Numeric.ParseIntToString` and `Numeric.ParseDecimalToString`. |
| Numeric.ParseNatToString | MA_app.py:16 | A natural number written in decimal reads back as itself. |
| Numeric.ParseNegative | MA_app.py:16 | A leading minus sign negates the number that follows it. |
| Numeric.ParseIntToString | MA_app.py:16-17 | Any integer written in decimal reads back as itself. |
| Numeric.ShiftPointDivides | MA_app.py:16 | Moving the decimal point k places to the left divides by 10^k. |
| Numeric.FracDigits | MA_app.py:16 | A fraction part below 10^k is written as exactly k digit characters. What they read back as is `Numeric.DigitsAppend`. |
| Numeric.DigitsAppend | MA_app.py:16 | Appending the k digits of a fraction part shifts the digits read so far by k places and adds the fraction part. |
| Numeric.ParseDecimalToString | MA_app.py:16-17 | Decimal text with k digits after the point, such as "4.5", reads back as n / 10^k, and as its negation after a minus sign. |
| MacApp.Coerce | MA_app.py:16-17 | `to_numeric(errors='coerce').fillna(0)` on one cell: a number is kept, numeric text is read, and missing or unreadable text becomes 0. |
| MacApp.CoerceColumn | MA_app.py:16-17 | A coerced column has the same length, only numbers, each the coerced cell, and cells that were numbers unchanged. |
| MacApp.FillNa | MA_app.py:18 | `fillna(d)`: same length, nothing missing, present values unchanged, missing values become `d`. |
| MacApp.PaidFlags | MA_app.py:19 | `is_paid` holds exactly when the price is not "Free". |
| MacApp.CleaningIsIdempotent | MA_app.py:16-21 | Cleaning an already cleaned column changes nothing. |
| MacApp.MissingPriceCountsAsPaid | MA_app.py:18-19 | A missing price is filled with "Unknown" before `is_paid` is derived, so the app counts as paid. |
| MacApp.MacFrame.constructor | MA_app.py:13 | The loaded table keeps its columns, and `is_paid` does not exist yet. |
| MacApp.MacFrame.BasicCleaning | MA_app.py:16-21 | Each column is overwritten in place by its cleaned version: rating and rating count coerced; price, advisory and URL filled with "Unknown", "Unrated" and "#". `is_paid` is added from the cleaned price. Afterwards no numeric cell is text, no text cell is missing, and `is_paid` holds exactly when the price is not "Free". |
| MacApp.MacFrame.Rows | MA_app.py:16-21 | The cleaned table row by row: one row per entry, every field equal to the cleaned column's entry at that position, and `is_paid` holding exactly when the price is not "Free". |
| MacApp.PaidApps | MA_app.py:34 | The paid-apps figure is the number of rows with `is_paid`. It is at most the row count, and with the free rows it adds up to the row count. |
| MacApp.AverageRating | MA_app.py:33 | The "Avg Rating" figure before rounding: undefined exactly on an empty table, otherwise the value that times the row count gives the rating total. |
| MacApp.AverageRatingInRange | MA_app.py:33 | When every rating lies in [0, 5], so does the "Avg Rating" figure. |
| MacApp.PaidValuesCount | MA_app.py:34 | Summing the paid flags as 1 and 0 counts the paid rows. |
| MacApp.PaidPercent | MA_app.py:34 | `100 * mean(is_paid)`: undefined exactly on an empty table, otherwise the value that times the row count gives 100 times the sum of the paid flags. |
| MacApp.PaidPercentIsShareOfPaidApps | MA_app.py:34 | The percentage lies in [0, 100] and is the paid-apps count as a share of the rows, so both numbers of the "Paid Apps" figure agree. |
| MacApp.FilterRows | MA_app.py:43-49 | The rating, `is_paid` and URL-search masks applied in turn, the search only for a non-empty term. It has no contract of its own. Its behaviour is stated by `MacApp.FilterRowsIsOneMask`, `MacApp.FilterRowsSelects` and `MacApp.FreeAndPaidSplitAll`. |
| MacApp.FilterRowsIsOneMask | MA_app.py:43-49 | The rating, `is_paid` and URL-search masks applied in turn equal one mask requiring all criteria at once. |
| MacApp.FilterRowsSelects | MA_app.py:43-49 | The filter only removes rows and keeps their order. A row survives exactly when its rating is at least the minimum, its `is_paid` flag matches the price type, and, for a non-empty term, its store URL (not its title) contains the term ignoring case. |
| MacApp.FreeMeansPriceFree | MA_app.py:43-45 | On a cleaned table, "Free" keeps exactly the rating-passing rows whose price is literally "Free". |
| MacApp.FreeAndPaidSplitAll | MA_app.py:43-47 | With rating and search held fixed, the "Free" and "Paid" results are disjoint, and together they hold each row of the "All" result exactly as often. |
| MacApp.TopApps | MA_app.py:65 | At most ten rows, ten unless fewer passed the filter. Non-increasing in rating, a sub-multiset of the filtered rows, and each row meets every criterion. |
| MacApp.TopAppsAreTheBestRated | MA_app.py:65 | No filtered row left out of the top ten is rated higher than a row shown. |
| InsightsApp.AverageRating | app.py:18 | The "Average Rating" figure before rounding: undefined exactly on an empty table, otherwise the value that times the row count gives the rating total. |
| InsightsApp.AverageRatingInRange | app.py:18 | When every rating lies in [0, 5], so does the "Average Rating" figure. |
| InsightsApp.FilterInsights | app.py:28-31 | The genre-set, rating and title masks applied in turn, the search only for a non-empty term. It has no contract of its own. Its behaviour is stated by `InsightsApp.FilterInsightsIsOneMask` and `InsightsApp.FilterInsightsSelects`. |
| InsightsApp.FilterInsightsIsOneMask | app.py:28-31 | The genre-set, rating and title masks applied in turn equal one mask requiring all criteria at once. |
| InsightsApp.FilterInsightsSelects | app.py:28-31 | The filter only removes rows and keeps their order. A row survives exactly when its genre is selected, its rating is at least the minimum, and, for a non-empty term, its title contains the term ignoring case. |
| InsightsApp.DefaultSelectionIsNoOp | app.py:23-28 | With the default selection (every genre of the table), the genre mask keeps every row. |
| InsightsApp.DefaultSelectionFiltersRatingAndTitle | app.py:23-31 | With the default selection, the result is the rating filter followed by the title search alone. |
| InsightsApp.GenreCounts | app.py:39-40 | `value_counts()` is non-increasing in count and a permutation of the per-genre aggregates. |
| InsightsApp.GenreCountsOneEntryPerGenre | app.py:39-40 | One entry per distinct genre. Each entry counts exactly that genre's rows, and the counts add up to `len(df)`. |
| InsightsApp.AvgRatings | app.py:49 | Per genre, in ascending genre order, the mean rating of that genre's rows of the whole table. It does not depend on the sidebar criteria. |
| InsightsApp.AvgRatingsCoverGenres | app.py:49 | Every genre of the table has an entry in the mean-rating table. |
| InsightsApp.MostCommonGenre | app.py:19 | Undefined (`None`) exactly on an empty table. Otherwise a genre of the table with no genre more frequent, the smallest of the most frequent. |
| InsightsApp.TopApps | app.py:61 | At most ten rows, ten unless fewer passed the filter. Non-increasing in rating, a sub-multiset of the filtered rows, and each row meets every criterion. |
| InsightsApp.TopAppsAreTheBestRated | app.py:61 | No filtered row left out of the top ten is rated higher than a row shown. |
| DataApp.GenreOptions | data/app.py:11 | "All" comes first, then the distinct genres in strictly ascending order without duplicates. Every genre of the table is an option, and every option but "All" is a genre. |
| DataApp.FilterByGenre | data/app.py:15-18 | The genre mask (skipped for "All") and then the rating mask. It has no contract of its own. Its behaviour is stated by `DataApp.FilterByGenreSelects` and `DataApp.GenreAndRatingFiltersCommute`. |
| DataApp.FilterByGenreSelects | data/app.py:15-18 | The filter only removes rows and keeps their order. A row survives exactly when its genre is the chosen one (any genre for "All") and its rating is at least the minimum. |
| DataApp.GenreAndRatingFiltersCommute | data/app.py:16-18 | Applying the rating filter before the genre filter gives the same rows in the same order. "All" leaves only the rating filter. |
| DataApp.AvgRatingsDesc | data/app.py:26 | The mean-rating table is non-increasing in mean rating and a permutation of the per-genre aggregates. |
| DataApp.AvgRatingsOneEntryPerGenre | data/app.py:26 | One entry per distinct genre: genres are pairwise distinct and every genre of the table has an entry. Each entry is the sum of that genre's ratings divided by its (positive) row count. |
| DataApp.TopApps | data/app.py:31 | At most ten rows, ten unless fewer passed the filter. Non-increasing in rating, a sub-multiset of the filtered rows, and each row meets every criterion. |
| DataApp.TopAppsAreTheBestRated | data/app.py:31 | No filtered row left out of the top ten is rated higher than a row shown. |

## Left out

- Presentation: page configuration, sidebar widgets, tabs, metrics and HTML cards are not modelled. They only display values the model computes. The selected widget values are parameters.
- Charts are not modelled: the altair box plots and bar charts, the seaborn scatter plot of the filtered top apps, and `st.bar_chart`. Their inputs are modelled, e.g. `st.bar_chart(value_counts())` in `data/app.py:22` is the same computation as `InsightsApp.GenreCounts`.
- Data loading and caching are I/O and become the table parameter: `read_parquet`, `read_csv`, `load_dataset` and `st.cache_data`.
- CSV export via `to_csv` is a serializer whose quoting rules are not visible. The exported rows are the filtered rows the model computes.
- The "Total Apps" figure (`MA_app.py:32`, `app.py:17`) is `len(df)`, the length of the table sequence, and has no member of its own.
- The rounding of the average-rating figures and of the paid percentage (`round(..., 2)`, `round(..., 1)`) is left out with floating point. `MacApp.AverageRating`, `InsightsApp.AverageRating` and `MacApp.PaidPercent` are the exact values before rounding.
- Title prettifying of the store URL at `MA_app.py:69` is display only.
- The other side of the merge conflict in `MA_app.py` reads a CSV file and does not define `is_paid`. It is not modelled.
- Text.Contains: `str.contains` reads the term as a regular expression by default. The model reads it as plain text. A term with regex metacharacters may therefore match differently, and a term that is not a valid pattern, such as `(`, makes pandas raise an error so the page fails, while the model filters normally.
- Text.Lower: case folding covers ASCII letters only, while pandas folds all of Unicode.
- Numeric.ParseNumber: covers plain decimal notation with an optional sign. Exponents, surrounding whitespace and spellings of infinity or NaN are not read, and such text coerces to 0 as unreadable text does.
- Floating point is not modelled. Ratings, means and coerced numbers are exact reals, and review counts are unbounded naturals.
- NaN is not modelled: NaN in masks, and NaN genres dropped by `groupby`. Every genre is a present string, and ratings in the record-based dashboards are present numbers.
- Ranking.SortDesc: pandas' default sort is not stable. The order among rows with equal keys is therefore unspecified, and every contract about the rankings leaves it open. `SortDesc` happens to pick one order.
- InsightsApp.MostCommonGenre: pandas raises an error on an empty table. The model returns `None` instead.
- The multiselect's order does not affect the filter, because `isin` is membership only. The selection is a sequence of strings.
- In `data/app.py`, a genre literally named "All" cannot be chosen. Choosing "All" disables the genre filter, and the options list would then hold "All" twice. `DataApp.GenreOptions` states the options for the ordinary case without proving anything about that collision.
