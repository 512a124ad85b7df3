/** The rows of the profile's tables. */
module Records {

  /**
   * One row of `user_df` or `friends_df`: the review text, the place tags, the text lines of
   * the address block, the city taken from them, the star rating and the sentiment in [0, 10].
   */
  datatype Review = Review(
    text: string,
    places: seq<string>,
    locations: seq<string>,
    city: string,
    rating: real,
    sentiment: real)

  /** One `(place, round(sentiment, 2), 1)` tuple of `get_places_info`; the count 1 is implicit. */
  datatype Mention = Mention(place: string, sentiment: real)

  /** One row of `user_places_df` or `friends_places_df`. */
  datatype PlaceStat = PlaceStat(place: string, sentiment: real, frequency: nat)
}
