/**
 * `scrape_review_info` with the page fetcher and the sentiment scorer as parameters: the rows
 * one listing page yields, the loop over the listing pages, and the friend cohort that
 * `scrape_all_info` collects one friend at a time.
 */
module Scraping {
  import opened Results
  import opened Records
  import opened Text
  import opened ReviewFields

  /** What the scraper extracts from one listing page, each list in page order. */
  datatype RawPage = RawPage(
    reviewCount: int,                  // the number in the page's first `<strong>`
    texts: seq<string>,                // the texts of the `<p lang="en">` elements
    categories: seq<string>,           // the texts of the `category-str-list` spans
    addresses: seq<seq<AddressNode>>,  // the children of the `<address>` elements
    ratingTitles: seq<string>)         // the titles matching "star rating"

  const ReviewsAddress: string := "https://www.yelp.com/user_details_reviews_self?userid="

  function FirstPageAddress(uid: string): string
  {
    ReviewsAddress + uid
  }

  function PageAddress(uid: string, page: nat): string
  {
    ReviewsAddress + uid + "&rec_+pagestart=" + PageStart(page)
  }

  /** The address fetched for page `page` of the listing: page 0 is the first response. */
  function PageUrl(uid: string, page: nat): string
  {
    if page == 0 then FirstPageAddress(uid) else PageAddress(uid, page)
  }

  /** What a row holds, field by field, given the raw items it was built from. */
  predicate RowOf(row: Review, text: string, category: string, address: seq<AddressNode>, title: string,
                  score: string -> real)
  {
    && row.text == text
    && row.places == PlaceNames(category)
    && row.locations == LocationLines(address)
    && City(row.locations) == Ok(row.city)
    && ParseRating(title) == Ok(row.rating)
    && row.sentiment == Sentiment(score(text))
  }

  /**
   * A column computed row by row, as `Series.apply` and a list comprehension compute it: the
   * first row that fails ends it with that row's error.
   */
  function Column<A, B>(xs: seq<A>, f: A -> Result<B>): (r: Result<seq<B>>)
    ensures r.Ok? <==> forall i :: 0 <= i < |xs| ==> f(xs[i]).Ok?
    ensures r.Ok? ==> |r.value| == |xs| && forall i :: 0 <= i < |xs| ==> f(xs[i]) == Ok(r.value[i])
  {
    if xs == [] then Ok([])
    else
      var y :- f(xs[0]);
      var rest :- Column(xs[1..], f);
      assert forall i :: 1 <= i < |xs| ==> xs[i] == xs[1..][i - 1];
      Ok([y] + rest)
  }

  /** The `locations` column: the text lines of each address block. */
  function LocationColumn(addresses: seq<seq<AddressNode>>): (ls: seq<seq<string>>)
    ensures |ls| == |addresses| && forall i :: 0 <= i < |addresses| ==> ls[i] == LocationLines(addresses[i])
  {
    seq(|addresses|, i requires 0 <= i < |addresses| => LocationLines(addresses[i]))
  }

  /**
   * The columns of one page assigned to a table that already has `prev` rows: a column whose
   * length differs from the table's (once it has rows) is a `ValueError`, an address block with
   * no text line an `IndexError`, a title that is not a number a `ValueError`. On success the
   * page's rows replace the table's.
   */
  function BuildRows(prev: nat, texts: seq<string>, categories: seq<string>, addresses: seq<seq<AddressNode>>,
                     titles: seq<string>, score: string -> real): (r: Result<seq<Review>>)
    ensures prev > 0 && |texts| != prev ==> r == Err(LengthMismatch)
    ensures r.Ok? ==> |r.value| == |texts|
  {
    if prev > 0 && |texts| != prev then Err(LengthMismatch)
    else if |categories| != |texts| then Err(LengthMismatch)
    else if |addresses| != |texts| then Err(LengthMismatch)
    else
      var n := |texts|;
      var locations := LocationColumn(addresses);
      var cities :- Column(locations, City);
      var ratings :- Column(titles, ParseRating);
      if |ratings| != n then Err(LengthMismatch)
      else
        Ok(seq(n, i requires 0 <= i < n =>
          Review(texts[i], PlaceNames(categories[i]), locations[i], cities[i], ratings[i], Sentiment(score(texts[i])))))
  }

  /**
   * A page's rows exist exactly when the columns fit the table and each other, every address
   * block has a text line and every title parses; each row then holds what its items give.
   */
  lemma BuildRowsFacts(prev: nat, texts: seq<string>, categories: seq<string>, addresses: seq<seq<AddressNode>>,
                       titles: seq<string>, score: string -> real)
    ensures var r := BuildRows(prev, texts, categories, addresses, titles, score);
            r.Ok? <==>
              && (prev == 0 || |texts| == prev)
              && |categories| == |texts| && |addresses| == |texts| && |titles| == |texts|
              && (forall i :: 0 <= i < |addresses| ==> LocationLines(addresses[i]) != [])
              && (forall i :: 0 <= i < |titles| ==> ParseRating(titles[i]).Ok?)
    ensures var r := BuildRows(prev, texts, categories, addresses, titles, score);
            r.Ok? ==> forall i :: 0 <= i < |texts| ==> RowOf(r.value[i], texts[i], categories[i], addresses[i], titles[i], score)
  {
    var r := BuildRows(prev, texts, categories, addresses, titles, score);
    if !(prev > 0 && |texts| != prev) && |categories| == |texts| && |addresses| == |texts| {
      var locations := LocationColumn(addresses);
      var cities := Column(locations, City);
      var ratings := Column(titles, ParseRating);
      assert cities.Ok? <==> forall i :: 0 <= i < |addresses| ==> LocationLines(addresses[i]) != [] by {
        forall i | 0 <= i < |addresses| ensures City(locations[i]).Ok? <==> LocationLines(addresses[i]) != [] {
          assert locations[i] == LocationLines(addresses[i]);
        }
      }
      if r.Ok? {
        assert cities.Ok? && ratings.Ok? && |ratings.value| == |texts|;
        forall i | 0 <= i < |texts|
          ensures RowOf(r.value[i], texts[i], categories[i], addresses[i], titles[i], score)
        {
          assert City(locations[i]) == Ok(cities.value[i]);
          assert ParseRating(titles[i]) == Ok(ratings.value[i]);
        }
      }
    }
  }

  /** The row count a table had before a page only decides whether the page fits. */
  lemma BuildRowsPrev(prev: nat, texts: seq<string>, categories: seq<string>, addresses: seq<seq<AddressNode>>,
                      titles: seq<string>, score: string -> real)
    requires BuildRows(prev, texts, categories, addresses, titles, score).Ok?
    ensures BuildRows(0, texts, categories, addresses, titles, score) == BuildRows(prev, texts, categories, addresses, titles, score)
  {
  }

  /** `soup.find(...)` for a friend: the first element, whose absence fails on first use. */
  function First<T>(s: seq<T>): (r: Result<seq<T>>)
  {
    if s == [] then Err(MissingElement) else Ok([s[0]])
  }

  /**
   * The rows of one page: every element for the main user, the first element of each kind for
   * a friend. A friend's columns are read in the source's order, so the missing element or
   * the address block without a line that comes first is the error reported.
   */
  function PageRows(page: RawPage, prev: nat, isMain: bool, score: string -> real): (r: Result<seq<Review>>)
    ensures r.Ok? ==> |r.value| == if isMain then |page.texts| else 1
    ensures r.Ok? ==> prev == 0 || |r.value| == prev
  {
    if isMain then BuildRows(prev, page.texts, page.categories, page.addresses, page.ratingTitles, score)
    else
      var texts :- First(page.texts);
      var categories :- First(page.categories);
      var addresses :- First(page.addresses);
      if LocationLines(addresses[0]) == [] then Err(NoAddressLine)
      else
        var titles :- First(page.ratingTitles);
        BuildRows(prev, texts, categories, addresses, titles, score)
  }

  lemma PageRowsPrev(page: RawPage, prev: nat, isMain: bool, score: string -> real)
    requires PageRows(page, prev, isMain, score).Ok?
    ensures PageRows(page, 0, isMain, score) == PageRows(page, prev, isMain, score)
  {
    if isMain {
      BuildRowsPrev(prev, page.texts, page.categories, page.addresses, page.ratingTitles, score);
    } else {
      BuildRowsPrev(prev, [page.texts[0]], [page.categories[0]], [page.addresses[0]], [page.ratingTitles[0]], score);
    }
  }

  /** `1` for a friend; the review count of the first page for the main user. */
  function TotalReviews(uid: string, isMain: bool, fetch: string -> RawPage): int
  {
    if isMain then fetch(FirstPageAddress(uid)).reviewCount else 1
  }

  /** Pages `page` to `n - 1` assigned in turn to a table that holds `table`. */
  function ScanPages(uid: string, isMain: bool, fetch: string -> RawPage, score: string -> real,
                     table: seq<Review>, page: nat, n: nat): (r: Result<seq<Review>>)
    ensures r.Ok? && |table| > 0 ==> |r.value| == |table|
    decreases n - page
  {
    if page >= n then Ok(table)
    else
      var rows :- PageRows(fetch(PageUrl(uid, page)), |table|, isMain, score);
      ScanPages(uid, isMain, fetch, score, rows, page + 1, n)
  }

  lemma ScanStep(uid: string, isMain: bool, fetch: string -> RawPage, score: string -> real,
                 table: seq<Review>, page: nat, n: nat, rows: Result<seq<Review>>)
    requires page < n && rows == PageRows(fetch(PageUrl(uid, page)), |table|, isMain, score)
    ensures rows.Err? ==> ScanPages(uid, isMain, fetch, score, table, page, n) == Err(rows.error)
    ensures rows.Ok? ==> ScanPages(uid, isMain, fetch, score, table, page, n) == ScanPages(uid, isMain, fetch, score, rows.value, page + 1, n)
  {
  }

  /** The table `scrape_review_info` builds for `uid`. */
  function ReviewTable(uid: string, isMain: bool, fetch: string -> RawPage, score: string -> real): (r: Result<seq<Review>>)
    ensures r.Ok? && NumPages(TotalReviews(uid, isMain, fetch)) == 0 ==> r.value == []
    ensures r.Ok? && !isMain ==> |r.value| == 1
  {
    assert !isMain ==> NumPages(TotalReviews(uid, isMain, fetch)) == 1;
    ScanPages(uid, isMain, fetch, score, [], 0, NumPages(TotalReviews(uid, isMain, fetch)))
  }

  lemma {:induction false} ScanLast(uid: string, isMain: bool, fetch: string -> RawPage, score: string -> real,
                                   table: seq<Review>, page: nat, n: nat)
    requires page < n && ScanPages(uid, isMain, fetch, score, table, page, n).Ok?
    ensures PageRows(fetch(PageUrl(uid, n - 1)), 0, isMain, score) == ScanPages(uid, isMain, fetch, score, table, page, n)
    decreases n - page
  {
    var rows := PageRows(fetch(PageUrl(uid, page)), |table|, isMain, score);
    ScanStep(uid, isMain, fetch, score, table, page, n, rows);
    if page + 1 < n {
      ScanLast(uid, isMain, fetch, score, rows.value, page + 1, n);
    } else {
      PageRowsPrev(fetch(PageUrl(uid, page)), |table|, isMain, score);
    }
  }

  /**
   * Each page replaces the table's columns rather than adding to them, so a table built from
   * one or more pages holds just the rows of its last page.
   */
  lemma LastPageWins(uid: string, isMain: bool, fetch: string -> RawPage, score: string -> real)
    requires ReviewTable(uid, isMain, fetch, score).Ok?
    ensures var n := NumPages(TotalReviews(uid, isMain, fetch));
            && (n == 0 ==> ReviewTable(uid, isMain, fetch, score) == Ok([]))
            && (n > 0 ==> ReviewTable(uid, isMain, fetch, score) == PageRows(fetch(PageUrl(uid, n - 1)), 0, isMain, score))
  {
    var n := NumPages(TotalReviews(uid, isMain, fetch));
    if n > 0 {
      ScanLast(uid, isMain, fetch, score, [], 0, n);
    }
  }

  // ----- the page scan over any page step, for the proofs about the page loop -----

  /**
   * `ScanPages` with the rows of each page abstracted: `step(page, prev)` is what page `page`
   * gives to a table that had `prev` rows before it.
   */
  function Scan(step: (nat, nat) -> Result<seq<Review>>, table: seq<Review>, page: nat, n: nat): Result<seq<Review>>
    decreases n - page
  {
    if page >= n then Ok(table)
    else
      var rows :- step(page, |table|);
      Scan(step, rows, page + 1, n)
  }

  /** The page step of `uid`'s listing: the rows of the response fetched for the page. */
  function PageStep(uid: string, isMain: bool, fetch: string -> RawPage, score: string -> real)
    : (step: (nat, nat) -> Result<seq<Review>>)
    ensures forall page, prev :: step(page, prev) == PageRows(fetch(PageUrl(uid, page)), prev, isMain, score)
  {
    (page: nat, prev: nat) => PageRows(fetch(PageUrl(uid, page)), prev, isMain, score)
  }

  /** The page scan of `uid`'s listing is the scan over its page step. */
  lemma {:induction false} ScanPagesAsScan(uid: string, isMain: bool, fetch: string -> RawPage, score: string -> real,
                                          table: seq<Review>, page: nat, n: nat)
    ensures ScanPages(uid, isMain, fetch, score, table, page, n) == Scan(PageStep(uid, isMain, fetch, score), table, page, n)
    decreases n - page
  {
    if page < n {
      var rows := PageRows(fetch(PageUrl(uid, page)), |table|, isMain, score);
      assert PageStep(uid, isMain, fetch, score)(page, |table|) == rows;
      if rows.Ok? {
        ScanPagesAsScan(uid, isMain, fetch, score, rows.value, page + 1, n);
      }
    }
  }

  /** A friend's table is one page: one row built from the first element of each kind. */
  lemma FriendTable(id: string, fetch: string -> RawPage, score: string -> real)
    ensures var t := ReviewTable(id, false, fetch, score);
            var p := fetch(FirstPageAddress(id));
            && (t.Ok? <==> p.texts != [] && p.categories != [] && p.addresses != [] && LocationLines(p.addresses[0]) != []
                           && p.ratingTitles != [] && ParseRating(p.ratingTitles[0]).Ok?)
            && (t.Ok? ==> |t.value| == 1 && RowOf(t.value[0], p.texts[0], p.categories[0], p.addresses[0], p.ratingTitles[0], score))
  {
    assert NumPages(TotalReviews(id, false, fetch)) == 1;
    assert PageUrl(id, 0) == FirstPageAddress(id);
    var p := fetch(FirstPageAddress(id));
    if p.texts != [] && p.categories != [] && p.addresses != [] && p.ratingTitles != [] {
      BuildRowsFacts(0, [p.texts[0]], [p.categories[0]], [p.addresses[0]], [p.ratingTitles[0]], score);
    }
  }

  /** `requested` lists the addresses of pages 0, 1, ... in order, as the page loop fetches them. */
  predicate InPageOrder(uid: string, requested: seq<string>)
  {
    forall k :: 0 <= k < |requested| ==> requested[k] == PageUrl(uid, k)
  }

  lemma NextRequest(uid: string, requested: seq<string>, page: nat)
    requires page == |requested| && InPageOrder(uid, requested)
    ensures InPageOrder(uid, requested + [PageUrl(uid, page)])
  {
    var r := requested + [PageUrl(uid, page)];
    forall k | 0 <= k < |r| ensures r[k] == PageUrl(uid, k) {
      if k < page {
        assert r[k] == requested[k];
      }
    }
  }

  /** Scanning to one page further continues from where the shorter scan ended. */
  lemma {:induction false} ScanExtend(step: (nat, nat) -> Result<seq<Review>>, table: seq<Review>, page: nat, m: nat)
    requires page <= m
    ensures var s := Scan(step, table, page, m);
            Scan(step, table, page, m + 1) == if s.Err? then s else Scan(step, s.value, m, m + 1)
    decreases m - page
  {
    if page < m {
      var rows := step(page, |table|);
      if rows.Ok? {
        ScanExtend(step, rows.value, page + 1, m);
      }
    }
  }

  /**
   * The pages before `page` gave `table`; the rows of page `page` then decide how the scan of
   * the pages up to and including it ends.
   */
  lemma ScanPrefixStep(step: (nat, nat) -> Result<seq<Review>>, table: seq<Review>, page: nat)
    requires Scan(step, [], 0, page) == Ok(table)
    ensures var rows := step(page, |table|);
            Scan(step, [], 0, page + 1) == if rows.Err? then Err(rows.error) else Ok(rows.value)
  {
    ScanExtend(step, [], 0, page);
  }

  /** Once the pages up to `k` fail, scanning further pages gives the same failure. */
  lemma {:induction false} ScanErrorStays(step: (nat, nat) -> Result<seq<Review>>, k: nat, n: nat)
    requires k <= n && Scan(step, [], 0, k).Err?
    ensures Scan(step, [], 0, n) == Scan(step, [], 0, k)
    decreases n - k
  {
    if k < n {
      ScanExtend(step, [], 0, k);
      ScanErrorStays(step, k + 1, n);
    }
  }

  /**
   * One round of the page loop: page `page` is requested (page 0 was read before the loop),
   * and its rows decide how the scan of the pages up to it, and of all `n` pages, ends.
   */
  method ReadPage(uid: string, isMain: bool, fetch: string -> RawPage, score: string -> real,
                  first: RawPage, table: seq<Review>, page: nat, n: nat, requested: seq<string>)
    returns (rows: Result<seq<Review>>, next: seq<string>)
    requires first == fetch(FirstPageAddress(uid))
    requires page < n && ScanPages(uid, isMain, fetch, score, [], 0, page) == Ok(table)
    requires InPageOrder(uid, requested) && |requested| == Max(1, page)
    ensures InPageOrder(uid, next) && |next| == page + 1
    ensures rows.Ok? ==> ScanPages(uid, isMain, fetch, score, [], 0, page + 1) == Ok(rows.value)
    ensures rows.Err? ==> && ScanPages(uid, isMain, fetch, score, [], 0, page + 1) == Err(rows.error)
                          && ScanPages(uid, isMain, fetch, score, [], 0, n) == Err(rows.error)
  {
    var soup := first;
    next := requested;
    if page != 0 {
      var address := PageAddress(uid, page);
      assert address == PageUrl(uid, page);
      NextRequest(uid, requested, page);
      soup := fetch(address);
      next := requested + [address];
    }
    rows := PageRows(soup, |table|, isMain, score);
    var step := PageStep(uid, isMain, fetch, score);
    assert rows == step(page, |table|);
    ScanPagesAsScan(uid, isMain, fetch, score, [], 0, page);
    ScanPagesAsScan(uid, isMain, fetch, score, [], 0, page + 1);
    ScanPrefixStep(step, table, page);
    if rows.Err? {
      ScanPagesAsScan(uid, isMain, fetch, score, [], 0, n);
      ScanErrorStays(step, page + 1, n);
    }
  }

  /**
   * The page loop as the source runs it: the first response is read at once, then page `k`
   * for `k` from 1 is fetched; the first failing page ends the scrape, and no later page is
   * fetched.
   */
  method ReadReviewPages(uid: string, isMain: bool, fetch: string -> RawPage, score: string -> real)
    returns (r: Result<seq<Review>>, requested: seq<string>, pages: nat)
    ensures pages == NumPages(TotalReviews(uid, isMain, fetch))
    ensures r == ReviewTable(uid, isMain, fetch, score)
    ensures InPageOrder(uid, requested)
    ensures r.Ok? ==> |requested| == Max(1, pages)
    ensures r.Err? ==> && 1 <= |requested| <= pages
                       && ScanPages(uid, isMain, fetch, score, [], 0, |requested| - 1).Ok?
                       && ScanPages(uid, isMain, fetch, score, [], 0, |requested|) == r
  {
    requested := [FirstPageAddress(uid)];
    var first := fetch(FirstPageAddress(uid));
    var total := if isMain then first.reviewCount else 1;
    var n := NumPages(total);
    pages := n;
    var table: seq<Review> := [];
    var page := 0;
    while page < n
      invariant page <= n
      invariant InPageOrder(uid, requested) && |requested| == Max(1, page)
      invariant ScanPages(uid, isMain, fetch, score, [], 0, page) == Ok(table)
      decreases n - page
    {
      var rows;
      rows, requested := ReadPage(uid, isMain, fetch, score, first, table, page, n, requested);
      if rows.Err? {
        r := Err(rows.error);
        return;
      }
      table := rows.value;
      page := page + 1;
    }
    r := Ok(table);
  }

  /** Each friend's table, as a function of the friend's ID. */
  function FriendTables(fetch: string -> RawPage, score: string -> real): (tables: string -> Result<seq<Review>>)
    ensures SingleRows(tables)
  {
    id => ReviewTable(id, false, fetch, score)
  }

  /** Every table that `tables` builds has exactly one row. */
  ghost predicate SingleRows(tables: string -> Result<seq<Review>>)
  {
    forall id :: tables(id).Ok? ==> |tables(id).value| == 1
  }

  /** The tables of `ids` appended one after another; the first table that fails ends it. */
  function Cohort(ids: seq<string>, tables: string -> Result<seq<Review>>): (r: Result<seq<Review>>)
    ensures r.Ok? <==> forall i :: 0 <= i < |ids| ==> tables(ids[i]).Ok?
    ensures SingleRows(tables) && r.Ok? ==> |r.value| == |ids|
  {
    if ids == [] then Ok([])
    else
      assert forall i :: 0 <= i < |ids| - 1 ==> ids[..|ids| - 1][i] == ids[i];
      var rows :- Cohort(ids[..|ids| - 1], tables);
      var row :- tables(ids[|ids| - 1]);
      Ok(rows + row)
  }

  /**
   * With one row per table, the cohort exists exactly when every table does, and then holds
   * the row of each ID, in the order of `ids`.
   */
  lemma {:induction false} CohortOfSingles(ids: seq<string>, tables: string -> Result<seq<Review>>)
    requires SingleRows(tables)
    ensures Cohort(ids, tables).Ok? ==> forall i :: 0 <= i < |ids| ==> tables(ids[i]) == Ok([Cohort(ids, tables).value[i]])
  {
    if ids != [] {
      var init := ids[..|ids| - 1];
      var last := ids[|ids| - 1];
      CohortOfSingles(init, tables);
      assert forall i :: 0 <= i < |init| ==> ids[i] == init[i];
      var c := Cohort(ids, tables);
      if c.Ok? {
        var rows := Cohort(init, tables).value;
        var row := tables(last).value;
        assert c.value == rows + row;
        assert row == [row[0]];
        forall i | 0 <= i < |ids| ensures tables(ids[i]) == Ok([c.value[i]]) {
          if i < |init| {
            assert c.value[i] == rows[i];
          } else {
            assert c.value[i] == row[0];
          }
        }
      }
    }
  }

  /** A cohort whose first `k` IDs already fail fails as a whole. */
  lemma CohortOfPrefix(ids: seq<string>, k: nat, tables: string -> Result<seq<Review>>)
    requires SingleRows(tables)
    requires k <= |ids| && Cohort(ids[..k], tables).Err?
    ensures Cohort(ids, tables).Err?
  {
    var i :| 0 <= i < k && tables(ids[..k][i]).Err?;
    assert ids[..k][i] == ids[i];
  }

  /** The rows of the friends `ids`, one table after another; the first failing friend ends it. */
  function FriendCohort(ids: seq<string>, fetch: string -> RawPage, score: string -> real): (r: Result<seq<Review>>)
    ensures r.Ok? ==> |r.value| == |ids|
  {
    Cohort(ids, FriendTables(fetch, score))
  }

  /**
   * The cohort exists exactly when every friend's table does, and then holds the one row of
   * each friend, in the order of `ids`.
   */
  lemma CohortRows(ids: seq<string>, fetch: string -> RawPage, score: string -> real)
    ensures FriendCohort(ids, fetch, score).Ok? <==> forall i :: 0 <= i < |ids| ==> ReviewTable(ids[i], false, fetch, score).Ok?
    ensures FriendCohort(ids, fetch, score).Ok? ==>
              forall i :: 0 <= i < |ids| ==> ReviewTable(ids[i], false, fetch, score) == Ok([FriendCohort(ids, fetch, score).value[i]])
  {
    CohortOfSingles(ids, FriendTables(fetch, score));
  }

  /** Taking the next friend extends the cohort by that friend's rows, or makes it fail. */
  lemma CohortStep(ids: seq<string>, i: nat, fetch: string -> RawPage, score: string -> real)
    requires i < |ids| && FriendCohort(ids[..i], fetch, score).Ok?
    ensures ReviewTable(ids[i], false, fetch, score).Ok? ==>
              FriendCohort(ids[..i + 1], fetch, score) == Ok(FriendCohort(ids[..i], fetch, score).value + ReviewTable(ids[i], false, fetch, score).value)
    ensures ReviewTable(ids[i], false, fetch, score).Err? ==> FriendCohort(ids[..i + 1], fetch, score).Err?
  {
    assert ids[..i + 1][..i] == ids[..i];
    assert ids[..i + 1][i] == ids[i];
  }

  /** A cohort whose first `k` friends already fail fails as a whole. */
  lemma CohortPrefix(ids: seq<string>, k: nat, fetch: string -> RawPage, score: string -> real)
    requires k <= |ids| && FriendCohort(ids[..k], fetch, score).Err?
    ensures FriendCohort(ids, fetch, score).Err?
  {
    CohortOfPrefix(ids, k, FriendTables(fetch, score));
  }
}
