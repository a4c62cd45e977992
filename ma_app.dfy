/** The Mac App Store dashboard: one table fetched once, cleaned column by
    column in place, then the rating and paid-apps figures, the sidebar
    filter (minimum rating, price type via the derived `is_paid` column,
    search in the store URL) and the ten best-rated filtered apps. */
module MacApp {
  import opened Seqs
  import opened Text
  import opened Records
  import opened Numeric
  import opened Ranking
  import Groups

  /** A raw numeric cell: a number, some text, or missing (NaN/None). */
  datatype Cell = Number(value: real) | Str(text: string) | Blank

  /** `pd.to_numeric(x, errors='coerce')` followed by `fillna(0)`: numbers are
      kept, numeric text is read, anything else becomes 0. */
  function Coerce(c: Cell): (v: real)
    ensures c.Number? ==> v == c.value
    ensures c.Str? && ParseNumber(c.text).Some? ==> v == ParseNumber(c.text).value
    ensures c.Blank? || (c.Str? && ParseNumber(c.text).None?) ==> v == 0.0
  {
    match c
    case Number(v) => v
    case Str(s) => (match ParseNumber(s) case Some(v) => v case None => 0.0)
    case Blank => 0.0
  }

  /** A numeric column after coercion: every cell is a number, and the value
      of every cell that was already a number is unchanged. */
  function CoerceColumn(col: seq<Cell>): (r: seq<Cell>)
    ensures |r| == |col|
    ensures forall i :: 0 <= i < |col| ==> r[i].Number? && r[i].value == Coerce(col[i])
    ensures forall i :: 0 <= i < |col| && col[i].Number? ==> r[i] == col[i]
  {
    seq(|col|, i requires 0 <= i < |col| => Number(Coerce(col[i])))
  }

  /** `fillna(d)`: missing entries become `d`, present entries are unchanged. */
  function FillNa(col: seq<Option<string>>, d: string): (r: seq<Option<string>>)
    ensures |r| == |col|
    ensures forall i :: 0 <= i < |col| ==> r[i].Some?
    ensures forall i :: 0 <= i < |col| && col[i].Some? ==> r[i] == col[i]
    ensures forall i :: 0 <= i < |col| && col[i].None? ==> r[i] == Some(d)
  {
    seq(|col|, i requires 0 <= i < |col| => if col[i].Some? then col[i] else Some(d))
  }

  /** `formattedPrice.apply(lambda x: x != 'Free')`. */
  function PaidFlags(price: seq<Option<string>>): (r: seq<bool>)
    ensures |r| == |price|
    ensures forall i :: 0 <= i < |price| ==> (r[i] <==> price[i] != Some("Free"))
  {
    seq(|price|, i requires 0 <= i < |price| => price[i] != Some("Free"))
  }

  /** Cleaning a cleaned column again changes nothing. */
  lemma CleaningIsIdempotent(col: seq<Cell>, texts: seq<Option<string>>, d: string)
    ensures CoerceColumn(CoerceColumn(col)) == CoerceColumn(col)
    ensures FillNa(FillNa(texts, d), d) == FillNa(texts, d)
  {
  }

  /** A missing price is filled with "Unknown" before `is_paid` is derived,
      so an app without a price counts as paid. */
  lemma MissingPriceCountsAsPaid(price: seq<Option<string>>, i: int)
    requires 0 <= i < |price| && price[i].None?
    ensures PaidFlags(FillNa(price, "Unknown"))[i]
  {
  }

  /** One cleaned row, with the derived `is_paid` column. */
  datatype MacRow = MacRow(
    rating: real,        // averageUserRating
    ratingCount: real,   // userRatingCount
    price: string,       // formattedPrice
    isPaid: bool,        // is_paid
    advisory: string,    // contentAdvisoryRating
    url: string)         // trackViewUrl

  /** The table the dashboard loads, as the columns the cleaning touches.
      `isPaid` is `None` until the cleaning adds the column. */
  class MacFrame {
    var rating: seq<Cell>
    var ratingCount: seq<Cell>
    var price: seq<Option<string>>
    var isPaid: Option<seq<bool>>
    var advisory: seq<Option<string>>
    var url: seq<Option<string>>

    /** Every column has one entry per row. */
    ghost predicate Valid()
      reads this
    {
      && |ratingCount| == |rating|
      && |price| == |rating|
      && |advisory| == |rating|
      && |url| == |rating|
      && (isPaid.Some? ==> |isPaid.value| == |rating|)
    }

    /** What the cleaning establishes: numbers everywhere in the numeric
        columns, no missing text, and `is_paid` exactly when the price is
        not "Free". */
    ghost predicate Cleaned()
      reads this
      requires Valid()
    {
      && (forall i :: 0 <= i < |rating| ==> rating[i].Number? && ratingCount[i].Number?)
      && (forall i :: 0 <= i < |rating| ==> price[i].Some? && advisory[i].Some? && url[i].Some?)
      && isPaid.Some?
      && (forall i :: 0 <= i < |rating| ==> (isPaid.value[i] <==> price[i].value != "Free"))
    }

    constructor (rating: seq<Cell>, ratingCount: seq<Cell>, price: seq<Option<string>>,
                 advisory: seq<Option<string>>, url: seq<Option<string>>)
      requires |ratingCount| == |rating| && |price| == |rating|
      requires |advisory| == |rating| && |url| == |rating|
      ensures Valid()
      ensures this.rating == rating && this.ratingCount == ratingCount && this.price == price
      ensures this.advisory == advisory && this.url == url && this.isPaid == None
    {
      this.rating := rating;
      this.ratingCount := ratingCount;
      this.price := price;
      this.advisory := advisory;
      this.url := url;
      this.isPaid := None;
    }

    /** The "Basic cleaning" block: each statement overwrites or adds one column. */
    method BasicCleaning()
      requires Valid()
      modifies this
      ensures Valid() && Cleaned()
      ensures rating == CoerceColumn(old(rating))
      ensures ratingCount == CoerceColumn(old(ratingCount))
      ensures price == FillNa(old(price), "Unknown")
      ensures isPaid == Some(PaidFlags(price))
      ensures advisory == FillNa(old(advisory), "Unrated")
      ensures url == FillNa(old(url), "#")
    {
      rating := CoerceColumn(rating);
      ratingCount := CoerceColumn(ratingCount);
      price := FillNa(price, "Unknown");
      isPaid := Some(PaidFlags(price));
      advisory := FillNa(advisory, "Unrated");
      url := FillNa(url, "#");
    }

    /** The cleaned table, row by row. */
    ghost function Rows(): (rows: seq<MacRow>)
      reads this
      requires Valid() && Cleaned()
      ensures |rows| == |rating|
      ensures forall i :: 0 <= i < |rows| ==> rows[i].isPaid == (rows[i].price != "Free")
      ensures forall i :: 0 <= i < |rows| ==>
                && rows[i].rating == rating[i].value
                && rows[i].ratingCount == ratingCount[i].value
                && rows[i].price == price[i].value
                && rows[i].isPaid == isPaid.value[i]
                && rows[i].advisory == advisory[i].value
                && rows[i].url == url[i].value
    {
      seq(|rating|, i requires 0 <= i < |rating| && Valid() && Cleaned() reads this =>
        MacRow(rating[i].value, ratingCount[i].value, price[i].value, isPaid.value[i],
               advisory[i].value, url[i].value))
    }
  }

  /** Mask `~df['is_paid']`. */
  function FreeRowMask(): MacRow -> bool {
    (r: MacRow) => !r.isPaid
  }

  /** Mask `df['is_paid']`. */
  function PaidRowMask(): MacRow -> bool {
    (r: MacRow) => r.isPaid
  }

  function MacRatingMask(min: real): MacRow -> bool {
    (r: MacRow) => r.rating >= min
  }

  /** Mask `df['trackViewUrl'].str.contains(term, case=False)`. */
  function UrlMask(term: string): MacRow -> bool {
    (r: MacRow) => MatchesIgnoringCase(r.url, term)
  }

  /** The "Paid Apps" figure: `df['is_paid'].sum()`. */
  function PaidApps(rows: seq<MacRow>): (n: nat)
    ensures n <= |rows|
    ensures n == |Filter(rows, PaidRowMask())|
    ensures n + |Filter(rows, FreeRowMask())| == |rows|
  {
    FilterPartition(rows, PaidRowMask(), FreeRowMask());
    Count(rows, PaidRowMask())
  }

  /** `is_paid` as a number, as `mean()` reads a boolean column. */
  function PaidValue(r: MacRow): real {
    if r.isPaid then 1.0 else 0.0
  }

  /** Summing the paid flags as numbers counts the paid rows. */
  lemma {:induction false} PaidValuesCount(rows: seq<MacRow>)
    ensures SumReal(rows, PaidValue) == Count(rows, PaidRowMask()) as real
    decreases |rows|
  {
    if rows != [] {
      PaidValuesCount(rows[1..]);
    }
  }

  /** The percentage in the "Paid Apps" figure before rounding,
      `100 * df['is_paid'].mean()`: 100 times the mean of the paid flags read
      as 1 and 0; `None` for an empty table, where pandas gives NaN. */
  function PaidPercent(rows: seq<MacRow>): (p: Option<real>)
    ensures p.None? <==> |rows| == 0
    ensures p.Some? ==> p.value * |rows| as real == 100.0 * SumReal(rows, PaidValue)
  {
    match Groups.Mean(rows, PaidValue)
    case None => None
    case Some(m) => Some(100.0 * m)
  }

  /** The percentage lies in [0, 100] and is the paid-apps count as a share
      of the rows, so the two numbers of the "Paid Apps" figure agree. */
  lemma PaidPercentIsShareOfPaidApps(rows: seq<MacRow>)
    requires |rows| > 0
    ensures 0.0 <= PaidPercent(rows).value <= 100.0
    ensures PaidPercent(rows).value * |rows| as real == 100.0 * PaidApps(rows) as real
  {
    PaidValuesCount(rows);
    Groups.MeanWithin(rows, PaidValue, 0.0, 1.0);
  }

  /** The "Avg Rating" figure before rounding: the mean rating of the cleaned
      table, where a missing or unreadable rating counts as 0; `None` for an
      empty table, where pandas gives NaN. */
  function AverageRating(rows: seq<MacRow>): (m: Option<real>)
    ensures m.None? <==> |rows| == 0
    ensures m.Some? ==> m.value * |rows| as real == SumReal(rows, MacRatingKey)
  {
    Groups.Mean(rows, MacRatingKey)
  }

  /** When every rating lies in [0, 5], so does the "Avg Rating" figure. */
  lemma AverageRatingInRange(rows: seq<MacRow>)
    requires |rows| > 0
    requires forall i :: 0 <= i < |rows| ==> 0.0 <= rows[i].rating <= 5.0
    ensures 0.0 <= AverageRating(rows).value <= 5.0
  {
    Groups.MeanWithin(rows, MacRatingKey, 0.0, 5.0);
  }

  predicate PaidAccepts(mode: PriceMode, isPaid: bool) {
    match mode
    case All => true
    case Free => !isPaid
    case Paid => isPaid
  }

  /** A row meets every sidebar criterion; the search box is matched against
      the store URL, and an empty search term is no criterion. */
  predicate Selected(r: MacRow, c: Criteria) {
    && r.rating >= c.minRating
    && PaidAccepts(c.price, r.isPaid)
    && (c.search == "" || MatchesIgnoringCase(r.url, c.search))
  }

  function SelectedMask(c: Criteria): MacRow -> bool {
    (r: MacRow) => Selected(r, c)
  }

  /** `filtered_df`: rating, then price type, then the URL search when the
      search box is not empty. */
  function FilterRows(rows: seq<MacRow>, c: Criteria): seq<MacRow> {
    var byRating := Filter(rows, MacRatingMask(c.minRating));
    var byPrice :=
      match c.price
      case All => byRating
      case Free => Filter(byRating, FreeRowMask())
      case Paid => Filter(byRating, PaidRowMask());
    if c.search != "" then Filter(byPrice, UrlMask(c.search)) else byPrice
  }

  lemma FilterRowsIsOneMask(rows: seq<MacRow>, c: Criteria)
    ensures FilterRows(rows, c) == Filter(rows, SelectedMask(c))
  {
    var rating := MacRatingMask(c.minRating);
    var price: MacRow -> bool := (r: MacRow) => r.rating >= c.minRating && PaidAccepts(c.price, r.isPaid);
    match c.price {
      case All =>
        FilterExt(rows, rating, price);
      case Free =>
        FilterFuse(rows, rating, FreeRowMask(), price);
      case Paid =>
        FilterFuse(rows, rating, PaidRowMask(), price);
    }
    if c.search != "" {
      FilterFuse(rows, price, UrlMask(c.search), SelectedMask(c));
    } else {
      FilterExt(rows, price, SelectedMask(c));
    }
  }

  /** The filter only removes rows, keeps their order, keeps exactly the
      rows that meet every criterion. */
  lemma FilterRowsSelects(rows: seq<MacRow>, c: Criteria)
    ensures IsSubsequence(FilterRows(rows, c), rows)
    ensures forall x :: x in FilterRows(rows, c) <==> x in rows && Selected(x, c)
  {
    FilterRowsIsOneMask(rows, c);
    FilterMembership(rows, SelectedMask(c));
  }

  /** On a cleaned table, the "Free" choice keeps exactly the rating-passing
      rows whose price is literally "Free" (so an "Unknown" price is paid). */
  lemma FreeMeansPriceFree(frame: MacFrame, minRating: real)
    requires frame.Valid() && frame.Cleaned()
    ensures forall x :: x in FilterRows(frame.Rows(), Criteria(minRating, Free, "")) <==>
              x in frame.Rows() && x.rating >= minRating && x.price == "Free"
  {
    var rows := frame.Rows();
    FilterRowsSelects(rows, Criteria(minRating, Free, ""));
    forall x | x in rows ensures x.isPaid == (x.price != "Free") {
      var i :| 0 <= i < |rows| && rows[i] == x;
    }
  }

  /** With the rating threshold and search term held fixed, "Free" and
      "Paid" split the "All" result. */
  lemma FreeAndPaidSplitAll(rows: seq<MacRow>, minRating: real, search: string)
    ensures var all := FilterRows(rows, Criteria(minRating, All, search));
            var free := FilterRows(rows, Criteria(minRating, Free, search));
            var paid := FilterRows(rows, Criteria(minRating, Paid, search));
            && multiset(free) + multiset(paid) == multiset(all)
            && |free| + |paid| == |all|
            && forall x :: !(x in free && x in paid)
  {
    var cAll := Criteria(minRating, All, search);
    var cFree := Criteria(minRating, Free, search);
    var cPaid := Criteria(minRating, Paid, search);
    FilterRowsIsOneMask(rows, cAll);
    FilterRowsIsOneMask(rows, cFree);
    FilterRowsIsOneMask(rows, cPaid);
    var all := Filter(rows, SelectedMask(cAll));
    FilterFuse(rows, SelectedMask(cAll), FreeRowMask(), SelectedMask(cFree));
    FilterFuse(rows, SelectedMask(cAll), PaidRowMask(), SelectedMask(cPaid));
    FilterPartition(all, FreeRowMask(), PaidRowMask());
  }

  function MacRatingKey(r: MacRow): real {
    r.rating
  }

  /** `top_apps`: the ten best-rated filtered rows, best first. */
  function TopApps(rows: seq<MacRow>, c: Criteria): (r: seq<MacRow>)
    ensures |r| <= 10
    ensures |r| == 10 || |r| == |FilterRows(rows, c)|
    ensures SortedDesc(r, MacRatingKey)
    ensures multiset(r) <= multiset(FilterRows(rows, c))
    ensures forall x :: x in r ==> x in rows && Selected(x, c)
  {
    var filtered := FilterRows(rows, c);
    FilterRowsSelects(rows, c);
    TopKRowsComeFromInput(filtered, MacRatingKey, 10);
    TopK(filtered, MacRatingKey, 10)
  }

  /** No filtered row left out of `top_apps` is rated higher than a row shown. */
  lemma TopAppsAreTheBestRated(rows: seq<MacRow>, c: Criteria, x: MacRow, y: MacRow)
    requires x in multiset(FilterRows(rows, c)) - multiset(TopApps(rows, c))
    requires y in TopApps(rows, c)
    ensures x.rating <= y.rating
  {
    TopKIsTop(FilterRows(rows, c), MacRatingKey, 10, x, y);
  }
}
