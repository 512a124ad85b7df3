/**
 * The `YelpUserProfile` object: the friend IDs, the two review frames and the two place frames
 * it keeps, the operations that fill them, and the queries over the side `isMainUser` selects.
 * A frame is `None` while it is the column-less `pd.DataFrame()` the constructor creates (or a
 * scrape that read no page leaves); reading a column of it is a `KeyError`.
 */
module Profile {
  import opened Results
  import opened Records
  import Places
  import Queries
  import ReviewFields
  import Scraping

  /** How many friends `scrape_all_info` samples (`num = 30`). */
  const FriendSample: nat := 30

  /** The rows of a frame; a frame without columns has none. */
  function Rows<T>(frame: Option<seq<T>>): seq<T>
  {
    if frame.Some? then frame.value else []
  }

  lemma AppendAssociative<T>(a: seq<T>, b: seq<T>, c: seq<T>)
    ensures (a + b) + c == a + (b + c)
  {
  }

  class UserProfile {
    const userId: string
    var friends: seq<string>
    var userReviews: Option<seq<Review>>
    var userPlaces: Option<seq<PlaceStat>>
    var friendReviews: Option<seq<Review>>
    var friendPlaces: Option<seq<PlaceStat>>

    /** A new profile holds no friend and four frames without columns. */
    constructor (id: string)
      ensures userId == id
      ensures friends == [] && userReviews == None && userPlaces == None && friendReviews == None && friendPlaces == None
    {
      userId := id;
      friends := [];
      userReviews := None;
      userPlaces := None;
      friendReviews := None;
      friendPlaces := None;
    }

    /** `self.user_df if is_main_user else self.friends_df`. */
    function SelectedReviews(isMainUser: bool): Option<seq<Review>>
      reads this
    {
      if isMainUser then userReviews else friendReviews
    }

    /** `self.user_places_df if is_main_user else self.friends_places_df`. */
    function SelectedPlaces(isMainUser: bool): Option<seq<PlaceStat>>
      reads this
    {
      if isMainUser then userPlaces else friendPlaces
    }

    /**
     * The friend-ID part of `scrape_basic_info`, given the `href`s of the friend links: the IDs
     * replace the profile's friends only when every link has one.
     */
    method ScrapeBasicInfo(friendLinks: seq<string>) returns (r: Result<seq<string>>)
      modifies this`friends
      ensures r == ReviewFields.FriendIds(friendLinks)
      ensures friends == if r.Ok? then r.value else old(friends)
    {
      r := ReviewFields.FriendIds(friendLinks);
      if r.Ok? {
        friends := r.value;
      }
    }

    /**
     * `scrape_review_info`: the main user's frame is stored (without columns when there was no
     * page to read), a friend's rows are returned and the stored frames stay as they are; a
     * failed scrape stores nothing.
     */
    method ScrapeReviewInfo(friendId: string, isMainUser: bool, fetch: string -> Scraping.RawPage, score: string -> real)
      returns (r: Result<seq<Review>>)
      modifies this`userReviews
      ensures r == Scraping.ReviewTable(if isMainUser then userId else friendId, isMainUser, fetch, score)
      ensures userReviews ==
                if !(isMainUser && r.Ok?) then old(userReviews)
                else if ReviewFields.NumPages(Scraping.TotalReviews(userId, true, fetch)) == 0 then None
                else Some(r.value)
    {
      var uid := if isMainUser then userId else friendId;
      var requested, pages;
      r, requested, pages := Scraping.ReadReviewPages(uid, isMainUser, fetch, score);
      if isMainUser && r.Ok? {
        userReviews := if pages == 0 then None else Some(r.value);
      }
    }

    /**
     * `get_places_info`: the mentions of the selected review frame, grouped by place, replace
     * the selected place frame; the other place frame and both review frames are unchanged. A
     * review frame without columns has no `places` column to read.
     */
    method GetPlacesInfo(isMainUser: bool) returns (r: Result<()>)
      modifies this`userPlaces, this`friendPlaces
      ensures r.Ok? <==> SelectedReviews(isMainUser).Some?
      ensures r.Err? ==> r.error == MissingColumn && userPlaces == old(userPlaces) && friendPlaces == old(friendPlaces)
      ensures r.Ok? ==> userPlaces == if isMainUser then Some(Places.PlaceTable(userReviews.value)) else old(userPlaces)
      ensures r.Ok? ==> friendPlaces == if isMainUser then old(friendPlaces) else Some(Places.PlaceTable(friendReviews.value))
    {
      var reviews := SelectedReviews(isMainUser);
      if reviews.None? {
        return Err(MissingColumn);
      }
      var ms := Places.CollectMentions(reviews.value);
      var table := Places.GroupByPlace(ms);
      if isMainUser {
        userPlaces := Some(table);
      } else {
        friendPlaces := Some(table);
      }
      r := Ok(());
    }

    /**
     * The loop of `scrape_all_info` over the sampled friends: each friend's rows are scraped and
     * appended to the friend frame in turn, and the first failure ends the loop with the rows of
     * the friends before it appended. Appending to a frame without columns gives it the columns
     * of the appended rows.
     */
    method AppendFriends(sample: seq<string>, fetch: string -> Scraping.RawPage, score: string -> real)
      returns (r: Result<()>)
      modifies this`userReviews, this`friendReviews
      ensures r.Ok? <==> Scraping.FriendCohort(sample, fetch, score).Ok?
      ensures r.Ok? ==> Rows(friendReviews) == Rows(old(friendReviews)) + Scraping.FriendCohort(sample, fetch, score).value
      ensures r.Ok? ==> (friendReviews.Some? <==> old(friendReviews).Some? || sample != [])
      ensures r.Err? ==> exists k :: (0 <= k < |sample| &&
                Scraping.ReviewTable(sample[k], false, fetch, score).Err? &&
                Scraping.FriendCohort(sample[..k], fetch, score).Ok? &&
                Rows(friendReviews) == Rows(old(friendReviews)) + Scraping.FriendCohort(sample[..k], fetch, score).value)
      ensures userReviews == old(userReviews)
    {
      var i := 0;
      ghost var base := Rows(friendReviews);
      ghost var done: seq<Review> := [];
      assert sample[..0] == [];
      while i < |sample|
        invariant 0 <= i <= |sample|
        invariant Scraping.FriendCohort(sample[..i], fetch, score) == Ok(done)
        invariant Rows(friendReviews) == base + done
        invariant friendReviews.Some? <==> old(friendReviews).Some? || i > 0
        invariant userReviews == old(userReviews)
      {
        var rows := ScrapeReviewInfo(sample[i], false, fetch, score);
        Scraping.CohortStep(sample, i, fetch, score);
        if rows.Err? {
          Scraping.CohortPrefix(sample, i + 1, fetch, score);
          assert Scraping.ReviewTable(sample[i], false, fetch, score).Err?;
          assert Rows(friendReviews) == Rows(old(friendReviews)) + Scraping.FriendCohort(sample[..i], fetch, score).value;
          return Err(rows.error);
        }
        var before := Rows(friendReviews);
        friendReviews := Some(before + rows.value);
        AppendAssociative(base, done, rows.value);
        done := done + rows.value;
        i := i + 1;
      }
      assert sample[..i] == sample;
      r := Ok(());
    }

    /**
     * `scrape_all_info`: the friend IDs, the main user's reviews and places, then the first 30
     * friends' rows appended to the friend frame one friend at a time, then the friends' places.
     * It stops at the first failure, keeping what it stored until then; a main user with no
     * review, or a profile with no friend, leaves a frame without columns and fails there.
     */
    method ScrapeAllInfo(friendLinks: seq<string>, fetch: string -> Scraping.RawPage, score: string -> real)
      returns (r: Result<()>)
      modifies this`friends, this`userReviews, this`userPlaces, this`friendReviews, this`friendPlaces
      ensures r.Ok? <==>
                && ReviewFields.FriendIds(friendLinks).Ok?
                && Scraping.ReviewTable(userId, true, fetch, score).Ok?
                && ReviewFields.NumPages(Scraping.TotalReviews(userId, true, fetch)) > 0
                && Scraping.FriendCohort(friends[..Min(FriendSample, |friends|)], fetch, score).Ok?
                && (old(friendReviews).Some? || friends != [])
      ensures r.Ok? ==> friends == ReviewFields.FriendIds(friendLinks).value
      ensures r.Ok? ==> userReviews == Some(Scraping.ReviewTable(userId, true, fetch, score).value)
      ensures r.Ok? ==> userPlaces == Some(Places.PlaceTable(userReviews.value))
      ensures r.Ok? ==> Rows(friendReviews) == Rows(old(friendReviews)) + Scraping.FriendCohort(friends[..Min(FriendSample, |friends|)], fetch, score).value
      ensures r.Ok? ==> |Rows(friendReviews)| == |Rows(old(friendReviews))| + Min(FriendSample, |friends|)
      ensures r.Ok? ==> friendReviews.Some? && friendPlaces == Some(Places.PlaceTable(Rows(friendReviews)))
      ensures r.Err? ==> friendPlaces == old(friendPlaces)
    {
      var ids := ScrapeBasicInfo(friendLinks);
      if ids.Err? {
        return Err(ids.error);
      }
      var main := ScrapeReviewInfo("", true, fetch, score);
      assert main == Scraping.ReviewTable(userId, true, fetch, score);
      if main.Err? {
        return Err(main.error);
      }
      r := GetPlacesInfo(true);
      if r.Err? {
        return;
      }
      assert userReviews == Some(main.value);
      var sample := friends[..Min(FriendSample, |friends|)];
      ghost var placed := userPlaces;
      ghost var before := friendReviews;
      r := AppendFriends(sample, fetch, score);
      assert userPlaces == placed;
      if r.Err? {
        return;
      }
      assert sample != [] <==> friends != [];
      var cohort := Scraping.FriendCohort(sample, fetch, score);
      assert |cohort.value| == |sample|;
      r := GetPlacesInfo(false);
    }

    // ----- queries over the selected side -----

    /** `get_most_visited_places` on the selected place frame. */
    function MostVisitedPlaces(isMainUser: bool): (r: Result<seq<(string, nat)>>)
      reads this
      ensures r.Err? <==> SelectedPlaces(isMainUser).None?
      ensures r.Ok? ==> r.value == Queries.MostVisitedPlaces(SelectedPlaces(isMainUser).value)
    {
      if SelectedPlaces(isMainUser).None? then Err(MissingColumn)
      else Ok(Queries.MostVisitedPlaces(SelectedPlaces(isMainUser).value))
    }

    /** `get_most_enthusiastic_places` on the selected place frame. */
    function MostEnthusiasticPlaces(isMainUser: bool): (r: Result<seq<(string, real)>>)
      reads this
      ensures r.Err? <==> SelectedPlaces(isMainUser).None?
      ensures r.Ok? ==> r.value == Queries.MostEnthusiasticPlaces(SelectedPlaces(isMainUser).value)
    {
      if SelectedPlaces(isMainUser).None? then Err(MissingColumn)
      else Ok(Queries.MostEnthusiasticPlaces(SelectedPlaces(isMainUser).value))
    }

    /** `get_most_visited_cities` on the selected review frame. */
    function MostVisitedCities(isMainUser: bool): (r: Result<seq<(string, nat)>>)
      reads this
      ensures r.Err? <==> SelectedReviews(isMainUser).None?
      ensures r.Ok? ==> r.value == Queries.MostVisitedCities(SelectedReviews(isMainUser).value)
    {
      if SelectedReviews(isMainUser).None? then Err(MissingColumn)
      else Ok(Queries.MostVisitedCities(SelectedReviews(isMainUser).value))
    }

    /** `get_avg_rating` on the selected review frame; `None` is the NaN of an empty column. */
    function AvgRating(isMainUser: bool): (r: Result<Option<real>>)
      reads this
      ensures r.Err? <==> SelectedReviews(isMainUser).None?
      ensures r.Ok? ==> r.value == Queries.AverageRating(SelectedReviews(isMainUser).value)
    {
      if SelectedReviews(isMainUser).None? then Err(MissingColumn)
      else Ok(Queries.AverageRating(SelectedReviews(isMainUser).value))
    }

    /** `get_enthusiasm_score` on the selected review frame. */
    function EnthusiasmScore(isMainUser: bool): (r: Result<Option<real>>)
      reads this
      ensures r.Err? <==> SelectedReviews(isMainUser).None?
      ensures r.Ok? ==> r.value == Queries.EnthusiasmScore(SelectedReviews(isMainUser).value)
    {
      if SelectedReviews(isMainUser).None? then Err(MissingColumn)
      else Ok(Queries.EnthusiasmScore(SelectedReviews(isMainUser).value))
    }

    /** `get_recent_reviews`, which always reads the main user's frame. */
    function RecentReviews(): (r: Result<seq<string>>)
      reads this
      ensures r.Err? <==> userReviews.None?
      ensures r.Ok? ==> r.value == Queries.RecentReviews(userReviews.value)
    {
      if userReviews.None? then Err(MissingColumn) else Ok(Queries.RecentReviews(userReviews.value))
    }
  }
}
