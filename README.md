# Yelp user profile: a Dafny model of the aggregation core

This project models the profile-aggregation engine of `YelpUserProfile`, in the Python file
`yelpUserProfile.py`. It also models the population filter of the city map in `static/js/map.js`.

The profile object holds four frames and a list:

- `user_df`, the main user's reviews;
- `friends_df`, the reviews of the sampled friends;
- `user_places_df` and `friends_places_df`, the place tables derived from those two;
- `friends`, the list of friend IDs.

Each review row holds:

- its text;
- its place tags, split on commas and stripped;
- the text lines of its address block;
- the city taken from those lines;
- the star rating read from the first three characters of the rating title;
- the sentiment `5 * (score + 1)`.

How the source's parts map to the modules:

- The per-field rules are functions in `ReviewFields`, each proved against Python's string semantics in `Text`.
- The page loop of `scrape_review_info` is the method `Scraping.ReadReviewPages`. It is proved equal to the functional specification `Scraping.ReviewTable`.
- `get_places_info` collects one mention per (review, tag) pair in a loop, `Places.CollectMentions`, and groups the mentions by place, `Places.GroupByPlace`.
- The ranked and averaged queries are functions in `Queries`, over the generic top-n in `Ranking` and the rounding in `Stats`.
- `Profile.UserProfile` is a class whose fields are the frames. Its methods `ScrapeBasicInfo`, `ScrapeReviewInfo`, `GetPlacesInfo` and `ScrapeAllInfo` update those fields as the source does. Its query functions read them.
- `PopulationBuckets` holds `filterFunction` and the six buckets of the map.

Conventions of the model:

- The page fetcher and the sentiment scorer are parameters: `fetch: string -> RawPage`, from a page address to the items extracted from that page, and `score: string -> real`.
- A raise in the source is an `Err` of `Results.Error`: `IndexError`, `ValueError`, `KeyError`, or a `TypeError` or `AttributeError` from using `None`, the result of a `find` that found nothing (`None.text`, `None.contents`, `None['title']`).
- A `pandas.DataFrame()` without columns is `None`. Reading a column of it gives `Err(MissingColumn)`.
- Reals are exact. `round(x, 2)` is round-half-to-even on the exact value, and the NaN mean of an empty column is `None`.

Behaviour of the code that the model keeps as it is:

- **Pages.** Every page's columns are assigned to the same frame, and each assignment replaces the columns before it. A table therefore holds only its last page's rows, not all pages' rows one after another (`Scraping.LastPageWins`). A page whose row count differs from the table's earlier non-zero row count raises `ValueError` (`LengthMismatch`). When the table has no row yet, pandas takes the page's rows as they are.
- **Malformed fields.** No exception is caught. A malformed rating or an address block without text ends the whole scrape, rather than skipping the review.
- **No friends.** With no friend, `friends_df` stays without columns, and `get_places_info(False)` then raises `KeyError`. `ScrapeAllInfo` fails there.
- **Place sentiment.** Each mention's sentiment is rounded to two decimals, and the mean per place is taken unrounded (`Places.PlaceTableRows`).

## Model

| member | source | states |
|---|---|---|
| Text.Split | yelpUserProfile.py:210 | `str.split` on one separator gives one more part than there are separators, and no part holds the separator |
| Text.JoinSplit | yelpUserProfile.py:210 | joining the parts of a split with the separator gives back the original string |
| Text.SplitJoin | yelpUserProfile.py:210 | parts free of the separator are recovered by splitting their join |
| Text.Strip | yelpUserProfile.py:210 | `strip` leaves no whitespace at either end and never lengthens the string |
| Text.StripFacts | yelpUserProfile.py:210 | `strip` gives a substring without whitespace at either end, and only whitespace is removed before and after it |
| Text.StripTrimmed | yelpUserProfile.py:210 | a string without whitespace at its ends is unchanged by `strip` |
| Text.StripIdempotent | yelpUserProfile.py:213 | stripping twice is stripping once |
| Text.LessIrreflexive | yelpUserProfile.py:90 | the key order `groupby` sorts by puts no string below itself |
| Text.LessTransitive | yelpUserProfile.py:90 | the key order is transitive |
| Text.LessTotal | yelpUserProfile.py:90 | any two different strings are ordered one way or the other |
| Text.NatToString | yelpUserProfile.py:201-202 | `str(n)` is a non-empty run of decimal digits |
| Text.NatToStringValue | yelpUserProfile.py:201-202 | the digits of `str(n)` denote n |
| Text.AppendZero | yelpUserProfile.py:201-202 | the `{}0` page offset of a positive page number is the decimal form of ten times it |
| ReviewFields.PlaceNames | yelpUserProfile.py:210 | a category text with c commas gives exactly c+1 names, name i being the stripped i-th comma-separated part; the names are stripped and comma-free, and "" gives `[""]` |
| ReviewFields.PlaceNamesJoin | yelpUserProfile.py:210 | stripped comma-free names joined by "," are split back into exactly those names |
| ReviewFields.DropLast6 | yelpUserProfile.py:215 | `s[0:-6]` is a prefix of `s` six characters shorter, and "" when `s` has at most six |
| ReviewFields.City | yelpUserProfile.py:215 | an empty line list is an `IndexError`; two lines give line 2 less its last six characters, any other count gives line 1 less its last six |
| ReviewFields.CityOfTwoLines | yelpUserProfile.py:215 | a street line and a "city, ST 00000"-shaped line give the city part |
| ReviewFields.CityOfFirstLine | yelpUserProfile.py:215 | with one line or three or more, the first line's city part is taken |
| ReviewFields.LocationLines | yelpUserProfile.py:213 | the lines of an address block are stripped and no more numerous than its children |
| ReviewFields.LocationLinesOfText | yelpUserProfile.py:213 | text children give one stripped line each, in order |
| ReviewFields.LocationLinesOfTags | yelpUserProfile.py:213 | tag children such as `<br>` give no line |
| ReviewFields.LocationLinesConcat | yelpUserProfile.py:213 | the lines of consecutive children are those of each part in order |
| ReviewFields.ParseDecimal | yelpUserProfile.py:218 | `float` fails only with a `ValueError` |
| ReviewFields.ParseDecimalAccepts | yelpUserProfile.py:218 | the modelled `float` succeeds exactly on a decimal literal of ASCII digits: an optional sign, digits and at most one point; the further forms Python accepts are under "Left out" |
| ReviewFields.ParsePointLiteral | yelpUserProfile.py:218 | the literal "d.d" reads as the number it spells |
| ReviewFields.ParseRating | yelpUserProfile.py:218 | the rating of a title fails only with a `ValueError` |
| ReviewFields.ParseRatingAccepts | yelpUserProfile.py:218 | a title parses exactly when its first three characters, stripped, form a decimal literal of ASCII digits |
| ReviewFields.RatingOfTitle | yelpUserProfile.py:218 | a title "d.d star rating" gives the rating d.d |
| ReviewFields.Sentiment | yelpUserProfile.py:220-221 | the sentiment is `5 * (score + 1)`, and it lies in [0, 10] exactly when the score lies in [-1, 1] |
| ReviewFields.SentimentPoints | yelpUserProfile.py:220-221 | scores -1, 0 and 1 give sentiments 0, 5 and 10 |
| ReviewFields.NumPages | yelpUserProfile.py:195 | `ceil(total / 10)` pages: none for a count of 0 or less, else n with 10(n-1) < total <= 10n |
| ReviewFields.PageStart | yelpUserProfile.py:201-202 | the `pagestart` of page k >= 1 is the decimal form of `10 * k` |
| ReviewFields.PageStartValue | yelpUserProfile.py:201-202 | the `pagestart` of page k >= 1 is a digit string denoting `10 * k`, the offset of the page's first review |
| ReviewFields.FriendId | yelpUserProfile.py:173 | `href.split("=")[1]` exists exactly when the link holds a "=", and holds no "=" |
| ReviewFields.FriendIdOf | yelpUserProfile.py:173 | a link "prefix=id", followed by nothing or by a further "=...", gives `id` |
| ReviewFields.FriendIds | yelpUserProfile.py:172-173 | the ID list exists exactly when every link has an ID, and then holds each link's ID in link order |
| Places.TagMentions | yelpUserProfile.py:86-87 | one mention per tag, in tag order, each carrying the review's rounded sentiment |
| Places.MentionsCount | yelpUserProfile.py:84-87 | there are as many mentions as (review, place tag) pairs |
| Places.CollectMentions | yelpUserProfile.py:84-87 | the nested append loop produces exactly the mention list of the review table |
| Places.InsertKey | yelpUserProfile.py:90 | adding a group key keeps the keys ascending and adds just that key |
| Places.PlaceKeys | yelpUserProfile.py:90 | the group keys are ascending and are exactly the places mentioned |
| Places.GroupByPlace | yelpUserProfile.py:90 | one row per mentioned place and no other, places strictly ascending; each row's frequency is the number of mentions of its place, at least 1, and its sentiment the mean of their sentiments |
| Places.PlaceTable | yelpUserProfile.py:84-90 | the place table has distinct places, and they are exactly the place tags the reviews use |
| Places.GroupedPlaces | yelpUserProfile.py:84-90 | the places grouped from a table's mentions are exactly the tags its reviews use |
| Places.SentimentsOfMentions | yelpUserProfile.py:85-90 | the sentiments grouped under a place are the rounded sentiments of the reviews naming it, once per naming |
| Places.PlaceTableRows | yelpUserProfile.py:85-90 | a place's frequency counts the tags naming it, and its sentiment is the mean of their two-decimal-rounded sentiments |
| Places.PlaceTableFrequencySum | yelpUserProfile.py:84-90 | the frequencies add up to the number of (review, place tag) pairs |
| Places.PlaceSentimentRange | yelpUserProfile.py:87-90 | with every review sentiment in [0, 10], every place sentiment is in [0, 10] |
| Stats.MeanBounds | yelpUserProfile.py:137 | a mean lies between any lower and upper bound of its values |
| Stats.RoundHalfEven | yelpUserProfile.py:87 | the rounded integer is within one half of the value |
| Stats.Round2 | yelpUserProfile.py:87 | `round(x, 2)` is a whole number of hundredths within half a hundredth of x |
| Stats.Round2Nearest | yelpUserProfile.py:87 | no whole number of hundredths is nearer to x than `round(x, 2)` |
| Stats.Round2TieEven | yelpUserProfile.py:87 | on an exact tie, `Round2(x)` is the even one of the two nearest whole numbers of hundredths |
| Stats.Round2Exact | yelpUserProfile.py:87 | a value that already is a whole number of hundredths is unchanged |
| Stats.Round2Within | yelpUserProfile.py:137 | bounds that are whole numbers of hundredths survive rounding |
| Ranking.Insert | yelpUserProfile.py:103 | inserting one row adds exactly that row |
| Ranking.InsertSorted | yelpUserProfile.py:103 | inserting into a descending sequence keeps it descending |
| Ranking.SortDesc | yelpUserProfile.py:103 | `sort_values(ascending=False)` gives a descending permutation of the rows |
| Ranking.TopN | yelpUserProfile.py:103-105 | `head(n)` after the sort keeps min(n, rows) rows, descending, drawn from the input, no row left out having a larger key than one kept, and no duplicate if the input had none |
| Ranking.TopNLeftover | yelpUserProfile.py:103-105 | counting repeated rows, no row left out has a larger key than a row kept |
| Queries.TopRows | yelpUserProfile.py:103-105 | the top rows of a place table come from it, none left out outranks one kept, and their places stay distinct |
| Queries.MostVisitedPlaces | yelpUserProfile.py:101-106 | at most three pairs of the table, frequencies non-increasing, none left out more frequent than one kept, places distinct |
| Queries.MostEnthusiasticPlaces | yelpUserProfile.py:112-117 | at most three pairs of the table, sentiments non-increasing, none left out higher than one kept, places distinct |
| Queries.Distinct | yelpUserProfile.py:125 | the distinct values of a column, each once, and exactly those values |
| Queries.CityPairs | yelpUserProfile.py:125 | every city of the table appears in `value_counts` with its count |
| Queries.CitiesFacts | yelpUserProfile.py:125 | `value_counts` gives one pair per distinct city, each with that city's count, which is at least 1 |
| Queries.MostVisitedCities | yelpUserProfile.py:123-129 | min(3, number of cities) pairs with distinct cities, each count the number of reviews in that city, counts non-increasing, no city left out with a higher count |
| Queries.RoundedMean | yelpUserProfile.py:137 | `round(mean, 2)` of a column: NaN (`None`) exactly when it is empty, else `Round2` of the mean, within half a hundredth of it and inside hundredth bounds of the values |
| Queries.AverageRating | yelpUserProfile.py:135-137 | NaN exactly for an empty table, else `Round2` of the mean rating, within half a hundredth of it and in [1, 5] when every rating is |
| Queries.EnthusiasmScore | yelpUserProfile.py:149-151 | NaN exactly for an empty table, else `Round2` of the mean sentiment, within half a hundredth of it and in [0, 10] when every sentiment is |
| Queries.RecentReviews | yelpUserProfile.py:143 | the first min(3, n) review texts, verbatim and in stored order |
| Scraping.Column | yelpUserProfile.py:215 | a column computed row by row exists exactly when every row's value does, and then holds each row's value in order |
| Scraping.BuildRows | yelpUserProfile.py:205-221 | a page whose row count differs from the table's earlier non-zero row count is a `ValueError`; otherwise the new table has one row per review text |
| Scraping.BuildRowsFacts | yelpUserProfile.py:205-221 | a page's rows exist exactly when all columns have the same length as the table, every address block has a line and every title parses; each row then holds the field rules' values for its items |
| Scraping.BuildRowsPrev | yelpUserProfile.py:207 | the table's earlier row count only decides whether a page fits, not what its rows are |
| Scraping.PageRows | yelpUserProfile.py:205-221 | a page's rows number its review texts for the main user and one for a friend, and match the table's earlier row count when it had rows |
| Scraping.PageRowsPrev | yelpUserProfile.py:205-221 | the same, for the rows of a whole page, main user or friend |
| Scraping.ScanPages | yelpUserProfile.py:197-221 | once the table has rows, every later page must give as many rows, so a successful scan keeps that row count |
| Scraping.ScanStep | yelpUserProfile.py:197-221 | one more page either ends the scan with its error or replaces the table with its rows |
| Scraping.ReviewTable | yelpUserProfile.py:188-221 | a scraped table has no row when there is no page, and a friend's table has exactly one row |
| Scraping.ScanLast | yelpUserProfile.py:197-221 | a successful scan of at least one page holds the rows of its last page |
| Scraping.LastPageWins | yelpUserProfile.py:195-221 | a scraped table is empty when there is no page, else the rows of the last page alone |
| Scraping.FriendTable | yelpUserProfile.py:191-218 | a friend's table exists exactly when the first element of each kind exists, its address block has a line and its title parses; it then has exactly one row, built from those first elements |
| Scraping.NextRequest | yelpUserProfile.py:199-203 | appending the address of page k after those of pages 0 to k-1 keeps the addresses in page order |
| Scraping.ScanExtend | yelpUserProfile.py:197-221 | for any page step, scanning one page more continues from where the shorter scan ended, or keeps its failure |
| Scraping.ScanPrefixStep | yelpUserProfile.py:197-221 | for any page step, after pages 0 to k-1 gave a table, page k's rows decide the scan of pages 0 to k: their error, or those rows |
| Scraping.ScanErrorStays | yelpUserProfile.py:197-221 | for any page step, once the first pages fail, scanning further pages keeps that failure |
| Scraping.ScanPagesAsScan | yelpUserProfile.py:197-221 | the scan of a listing's pages is the scan over the step that fetches each page and builds its rows |
| Scraping.ReadPage | yelpUserProfile.py:199-221 | one round of the page loop requests the next page in order and extends the table's scan by one page, or fails the whole scan with that page's error |
| Scraping.ReadReviewPages | yelpUserProfile.py:188-221 | the page loop computes `ReviewTable` and fetches first the listing, then `pagestart=10k` for k = 1, 2, ...; `ceil(total/10)` pages on success; on failure the pages before the last one requested succeed and the last one requested is the first that fails |
| Scraping.FriendTables | yelpUserProfile.py:191-218 | every friend table that exists has exactly one row |
| Scraping.Cohort | yelpUserProfile.py:238-240 | the appended tables exist exactly when every ID's table does, and with one-row tables there is one row per ID |
| Scraping.CohortOfSingles | yelpUserProfile.py:238-240 | with one-row tables, a successful cohort holds each ID's row at that ID's position |
| Scraping.CohortOfPrefix | yelpUserProfile.py:238-240 | a cohort whose first k IDs fail fails as a whole |
| Scraping.FriendCohort | yelpUserProfile.py:238-240 | a successful cohort has one row per sampled friend |
| Scraping.CohortRows | yelpUserProfile.py:238-240 | the friend cohort exists exactly when every sampled friend's table does, and then holds each friend's single row in friend order |
| Scraping.CohortStep | yelpUserProfile.py:238-240 | the next friend's scrape extends the cohort by its one row, or makes it fail |
| Scraping.CohortPrefix | yelpUserProfile.py:238-240 | a cohort whose first k friends fail fails as a whole |
| Profile.UserProfile.constructor | yelpUserProfile.py:40-44 | a new profile has no friend and four frames without columns |
| Profile.UserProfile.ScrapeBasicInfo | yelpUserProfile.py:172-176 | the friend IDs of the links replace the profile's friends when every link has one; otherwise it fails and they stay |
| Profile.UserProfile.ScrapeReviewInfo | yelpUserProfile.py:184-227 | for the main user a success stores the scraped table in `user_df` (without columns if there was no page); a friend's scrape stores nothing and returns the table. The source returns `None` for the main user; returning the table there too is the model's choice |
| Profile.UserProfile.GetPlacesInfo | yelpUserProfile.py:82-95 | on the selected review frame, the place table replaces only the selected place frame; a frame without columns is a `KeyError` and changes nothing |
| Profile.UserProfile.AppendFriends | yelpUserProfile.py:238-240 | appends the sampled friends' rows to `friends_df` in order; on failure, some friend k's table fails, all friends before it succeed, and exactly their rows have been appended; `user_df` is unchanged |
| Profile.UserProfile.ScrapeAllInfo | yelpUserProfile.py:233-243 | succeeds exactly when the IDs, the main table, at least one main page, the first 30 friends and a non-empty friend frame all succeed; `friends_df` then grows by one row per sampled friend, and both place frames are derived from the final review frames |
| Profile.UserProfile.MostVisitedPlaces | yelpUserProfile.py:101-106 | the top-three-by-frequency query on the selected place frame, a `KeyError` when it has no columns |
| Profile.UserProfile.MostEnthusiasticPlaces | yelpUserProfile.py:112-117 | the top-three-by-sentiment query on the selected place frame, a `KeyError` when it has no columns |
| Profile.UserProfile.MostVisitedCities | yelpUserProfile.py:123-129 | the top-three-cities query on the selected review frame, a `KeyError` when it has no columns |
| Profile.UserProfile.AvgRating | yelpUserProfile.py:135-137 | the average rating of the selected review frame, a `KeyError` when it has no columns |
| Profile.UserProfile.EnthusiasmScore | yelpUserProfile.py:149-151 | the enthusiasm score of the selected review frame, a `KeyError` when it has no columns |
| Profile.UserProfile.RecentReviews | yelpUserProfile.py:143 | the first three texts of the main user's frame, a `KeyError` when it has no columns |
| PopulationBuckets.FilterFunction | static/js/map.js:114-123 | a value passes exactly when it is at least `val1` and, when `val2` is truthy, below `val2` |
| PopulationBuckets.BucketIndex | static/js/map.js:67-96 | the bucket read off the thresholds is one of the six, or -1 below the smallest |
| PopulationBuckets.BucketMembership | static/js/map.js:69-94 | a population passes the filter of bucket k exactly when k is its bucket by the thresholds |
| PopulationBuckets.BucketsDisjoint | static/js/map.js:69-94 | no population passes the filters of two buckets |
| PopulationBuckets.BucketsCover | static/js/map.js:69-121 | some bucket's filter passes a population exactly when it is at least 100000 |

## Left out

- Network access and markup selection (`requests.get`, BeautifulSoup, `SoupStrainer`) are left out. The items a page yields are the `RawPage` record returned by the `fetch` parameter.
- The Google natural-language client is the `score` parameter. No range is assumed for it; `ReviewFields.Sentiment` states the range it maps [-1, 1] to.
- Logging, `print(user_id)`, argparse and the `__main__` block are left out: they are output and command-line plumbing.
- `to_string` and the basic-info getters are left out: they are report formatting and dictionary reads.
- Profile.UserProfile.ScrapeBasicInfo: only the friend-ID rule is modelled. The name, hometown, counts and picture fields of `user_dict` are left out because they are selector reads with no logic.
- `app.py`, `static/js/charts.js` and the anychart setup, data loading and drawing of `static/js/map.js` are left out: they are web and UI plumbing.
- The `int(...)` parse of the main user's review count is left out. The count arrives as an integer in `RawPage.reviewCount`.
- ReviewFields.ParseDecimal: it rejects some texts Python's `float` accepts: exponents, `inf`, `nan`, digit underscores and non-ASCII Unicode decimal digits (`float("٤.٥")` is 4.5). No three-character rating prefix of the site has those forms.
- ReviewFields.ParseDecimalAccepts: the "exactly" is with respect to the modelled literal, so it does not cover the forms above that Python's `float` also accepts, non-ASCII Unicode decimal digits among them.
- ReviewFields.ParseRatingAccepts: for the same reason, a title whose first three characters use non-ASCII Unicode decimal digits, or another form above, is rejected here although Python parses it.
- Stats.Round2: it rounds the exact real, not a binary double. Python's result can differ by one hundredth where a double's representation error crosses a tie.
- Binary floating point is left out in general: means and `math.ceil(total/10.)` are computed exactly. For the integer counts involved, `ceil` of the division agrees with the exact value.
- Ranking.TopN: it does not state how ties are ordered. pandas' default sort is not stable, so no order among equal keys is promised. The model's sort is a stable insertion sort.
- Scraping.BuildRows: within a page, every column must have as many items as the review texts, or the page is a `LengthMismatch`. pandas differs in one case: when a page has no review text but other items, it gives the still-empty frame the next column's index and fills the text column with NaN. The model does not represent NaN-filled columns.
- `DataFrame.append` is modelled as row concatenation. It was removed in pandas 2.0; the model assumes a pandas version that still has it.
- Profile.UserProfile.AvgRating, Profile.UserProfile.EnthusiasmScore: the NaN mean of an empty table is `None`. NaN's arithmetic and comparisons are not modelled.
- JavaScript truthiness of the upper bound is modelled for absent and zero bounds. `NaN` bounds are left out; none of the six calls passes one.
- `sentiment_client` is a constructor dependency, and the constructor's argparse branch is left out. The model's constructor takes the user ID.
