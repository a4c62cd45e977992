/** The application record shared by the dashboards and the sidebar criteria
    they filter it with. */
module Records {
  import opened Text

  datatype Option<T> = None | Some(value: T)

  /** One row of an app table. The column names differ between the dashboards
      (`trackName`/`title`, `primaryGenreName`/`predicted_genre`,
      `averageUserRating`/`rating_value`, `userRatingCount`/`reviews_count`);
      the meaning is the same. */
  datatype AppRecord = AppRecord(
    title: string,
    genre: string,
    rating: real,
    reviews: nat,
    price: string,      // `formattedPrice`, e.g. "Free" or "$4.99"
    advisory: string,   // `contentAdvisoryRating`, e.g. "4+"
    url: string)        // `trackViewUrl`

  /** The "Price Type" selectbox. */
  datatype PriceMode = All | Free | Paid

  /** The sidebar of the App Store dashboards: rating slider, price type and
      search box. */
  datatype Criteria = Criteria(minRating: real, price: PriceMode, search: string)

  /** Sort key `averageUserRating` / `rating_value`. */
  function RatingKey(r: AppRecord): real {
    r.rating
  }

  /** Sort key `userRatingCount`. */
  function ReviewKey(r: AppRecord): real {
    r.reviews as real
  }

  /** Mask `df[rating] >= min_rating`. */
  function RatingMask(min: real): AppRecord -> bool {
    (r: AppRecord) => r.rating >= min
  }

  /** Mask `df[title].str.contains(term, case=False)`. */
  function TitleMask(term: string): AppRecord -> bool {
    (r: AppRecord) => MatchesIgnoringCase(r.title, term)
  }
}
