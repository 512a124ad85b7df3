/**
 * The ranked and averaged queries of the profile, each over one table: the top three places by
 * frequency and by sentiment, the top three cities, the rounded mean rating and sentiment, and
 * the three most recent review texts.
 */
module Queries {
  import opened Results
  import opened Records
  import opened Stats
  import Ranking
  import Places

  /** How many rows the ranked queries keep (`head(3)`, `[0:3]`). */
  const TopCount: nat := 3

  function FrequencyKey(p: PlaceStat): real { p.frequency as real }

  function SentimentKey(p: PlaceStat): real { p.sentiment }

  /** The (place, frequency) pair of every row, in row order. */
  function VisitedPairs(t: seq<PlaceStat>): (r: seq<(string, nat)>)
    ensures |r| == |t| && forall i :: 0 <= i < |t| ==> r[i] == (t[i].place, t[i].frequency)
  {
    seq(|t|, i requires 0 <= i < |t| => (t[i].place, t[i].frequency))
  }

  /** The (place, sentiment) pair of every row, in row order. */
  function SentimentPairs(t: seq<PlaceStat>): (r: seq<(string, real)>)
    ensures |r| == |t| && forall i :: 0 <= i < |t| ==> r[i] == (t[i].place, t[i].sentiment)
  {
    seq(|t|, i requires 0 <= i < |t| => (t[i].place, t[i].sentiment))
  }

  /** What the top rows of a place table are, whatever the sort key. */
  lemma TopRows(table: seq<PlaceStat>, key: PlaceStat -> real, top: seq<PlaceStat>)
    requires top == Ranking.TopN(table, key, TopCount)
    ensures forall i :: 0 <= i < |top| ==> top[i] in table
    ensures forall row, i :: row in table && row !in top && 0 <= i < |top| ==> key(row) <= key(top[i])
    ensures Places.UniquePlaces(table) ==> Places.UniquePlaces(top)
  {
    forall i | 0 <= i < |top| ensures top[i] in table {
      assert top[i] in multiset(top);
    }
    forall row, i | row in table && row !in top && 0 <= i < |top| ensures key(row) <= key(top[i]) {
      assert top[i] in top;
    }
    if Places.UniquePlaces(table) {
      assert Ranking.NoDuplicates(table);
      forall i, j | 0 <= i < j < |top| ensures top[i].place != top[j].place {
        assert top[i] in table && top[j] in table;
        assert top[i] != top[j];
      }
    }
  }

  lemma VisitedMembers(table: seq<PlaceStat>, top: seq<PlaceStat>)
    requires forall i :: 0 <= i < |top| ==> top[i] in table
    ensures forall i :: 0 <= i < |top| ==> VisitedPairs(top)[i] in VisitedPairs(table)
  {
    var pt, pr := VisitedPairs(table), VisitedPairs(top);
    forall i | 0 <= i < |top| ensures pr[i] in pt {
      var j :| 0 <= j < |table| && table[j] == top[i];
      assert pt[j] == pr[i];
    }
  }

  lemma VisitedLeftover(table: seq<PlaceStat>, top: seq<PlaceStat>)
    requires forall row, i :: row in table && row !in top && 0 <= i < |top| ==> FrequencyKey(row) <= FrequencyKey(top[i])
    ensures forall q, i :: q in VisitedPairs(table) && q !in VisitedPairs(top) && 0 <= i < |top| ==> q.1 <= top[i].frequency
  {
    var pt, pr := VisitedPairs(table), VisitedPairs(top);
    forall q, i | q in pt && q !in pr && 0 <= i < |top| ensures q.1 <= top[i].frequency {
      var j :| 0 <= j < |table| && pt[j] == q;
      forall m | 0 <= m < |top| ensures top[m] != table[j] {
        assert pr[m] == (top[m].place, top[m].frequency);
      }
      assert FrequencyKey(table[j]) <= FrequencyKey(top[i]);
    }
  }

  /**
   * `get_most_visited_places` over one place table: at most three (place, frequency) pairs,
   * frequencies non-increasing, each pair a row of the table, and no row left out with a
   * higher frequency than a row kept.
   */
  function MostVisitedPlaces(table: seq<PlaceStat>): (r: seq<(string, nat)>)
    ensures |r| == Min(TopCount, |table|)
    ensures forall i, j :: 0 <= i < j < |r| ==> r[i].1 >= r[j].1
    ensures forall i :: 0 <= i < |r| ==> r[i] in VisitedPairs(table)
    ensures forall q, i :: q in VisitedPairs(table) && q !in r && 0 <= i < |r| ==> q.1 <= r[i].1
    ensures Places.UniquePlaces(table) ==> forall i, j :: 0 <= i < j < |r| ==> r[i].0 != r[j].0
  {
    var top := Ranking.TopN(table, FrequencyKey, TopCount);
    TopRows(table, FrequencyKey, top);
    VisitedMembers(table, top);
    VisitedLeftover(table, top);
    VisitedPairs(top)
  }

  lemma SentimentMembers(table: seq<PlaceStat>, top: seq<PlaceStat>)
    requires forall i :: 0 <= i < |top| ==> top[i] in table
    ensures forall i :: 0 <= i < |top| ==> SentimentPairs(top)[i] in SentimentPairs(table)
  {
    var pt, pr := SentimentPairs(table), SentimentPairs(top);
    forall i | 0 <= i < |top| ensures pr[i] in pt {
      var j :| 0 <= j < |table| && table[j] == top[i];
      assert pt[j] == pr[i];
    }
  }

  lemma SentimentLeftover(table: seq<PlaceStat>, top: seq<PlaceStat>)
    requires forall row, i :: row in table && row !in top && 0 <= i < |top| ==> SentimentKey(row) <= SentimentKey(top[i])
    ensures forall q, i :: q in SentimentPairs(table) && q !in SentimentPairs(top) && 0 <= i < |top| ==> q.1 <= top[i].sentiment
  {
    var pt, pr := SentimentPairs(table), SentimentPairs(top);
    forall q, i | q in pt && q !in pr && 0 <= i < |top| ensures q.1 <= top[i].sentiment {
      var j :| 0 <= j < |table| && pt[j] == q;
      forall m | 0 <= m < |top| ensures top[m] != table[j] {
        assert pr[m] == (top[m].place, top[m].sentiment);
      }
      assert SentimentKey(table[j]) <= SentimentKey(top[i]);
    }
  }

  /**
   * `get_most_enthusiastic_places` over one place table: at most three (place, sentiment)
   * pairs, sentiments non-increasing, each pair a row of the table, and no row left out with a
   * higher sentiment than a row kept.
   */
  function MostEnthusiasticPlaces(table: seq<PlaceStat>): (r: seq<(string, real)>)
    ensures |r| == Min(TopCount, |table|)
    ensures forall i, j :: 0 <= i < j < |r| ==> r[i].1 >= r[j].1
    ensures forall i :: 0 <= i < |r| ==> r[i] in SentimentPairs(table)
    ensures forall q, i :: q in SentimentPairs(table) && q !in r && 0 <= i < |r| ==> q.1 <= r[i].1
    ensures Places.UniquePlaces(table) ==> forall i, j :: 0 <= i < j < |r| ==> r[i].0 != r[j].0
  {
    var top := Ranking.TopN(table, SentimentKey, TopCount);
    TopRows(table, SentimentKey, top);
    SentimentMembers(table, top);
    SentimentLeftover(table, top);
    SentimentPairs(top)
  }

  // ----- cities -----

  function Cities(rs: seq<Review>): seq<string>
  {
    seq(|rs|, i requires 0 <= i < |rs| => rs[i].city)
  }

  /** How many reviews of the table are in city `c`. */
  function CityCount(rs: seq<Review>, c: string): nat
  {
    if rs == [] then 0 else (if rs[0].city == c then 1 else 0) + CityCount(rs[1..], c)
  }

  lemma {:induction false} CityCountPositive(rs: seq<Review>, k: nat)
    requires k < |rs|
    ensures CityCount(rs, rs[k].city) >= 1
  {
    if k > 0 {
      CityCountPositive(rs[1..], k - 1);
    }
  }

  /** Each value of `s` once, in order of first occurrence. */
  function Distinct(s: seq<string>): (d: seq<string>)
    ensures Ranking.NoDuplicates(d)
    ensures forall x :: x in d <==> x in s
  {
    if s == [] then []
    else
      var init := Distinct(s[..|s| - 1]);
      assert s == s[..|s| - 1] + [s[|s| - 1]];
      if s[|s| - 1] in init then init else init + [s[|s| - 1]]
  }

  lemma {:induction false} NoDuplicatesCardinality(d: seq<string>)
    requires Ranking.NoDuplicates(d)
    ensures |set x | x in d| == |d|
  {
    if d != [] {
      NoDuplicatesCardinality(d[1..]);
      assert (set x | x in d) == {d[0]} + (set x | x in d[1..]);
      assert d[0] !in d[1..];
    }
  }

  /** `value_counts()` of the city column, as (city, count) pairs. */
  function CityCounts(rs: seq<Review>): seq<(string, nat)>
  {
    var d := Distinct(Cities(rs));
    seq(|d|, i requires 0 <= i < |d| => (d[i], CityCount(rs, d[i])))
  }

  function CountKey(c: (string, nat)): real { c.1 as real }

  /**
   * `get_most_visited_cities` over one review table: at most three (city, count) pairs with
   * distinct cities, each count the number of reviews in that city, counts non-increasing, as
   * many pairs as there are cities up to three, and no city left out with a higher count than a
   * city kept.
   */
  function MostVisitedCities(rs: seq<Review>): (r: seq<(string, nat)>)
    ensures |r| == Min(TopCount, |set k | 0 <= k < |rs| :: rs[k].city|)
    ensures forall i :: 0 <= i < |r| ==> r[i].1 == CityCount(rs, r[i].0) >= 1
    ensures forall i, j :: 0 <= i < j < |r| ==> r[i].0 != r[j].0
    ensures forall i, j :: 0 <= i < j < |r| ==> r[i].1 >= r[j].1
    ensures forall k, i :: 0 <= k < |rs| && 0 <= i < |r| && (rs[k].city, CityCount(rs, rs[k].city)) !in r
              ==> CityCount(rs, rs[k].city) <= r[i].1
  {
    var r := Ranking.TopN(CityCounts(rs), CountKey, TopCount);
    TopCitiesSize(rs, r);
    TopCitiesRows(rs, r);
    TopCitiesOrder(r);
    TopCitiesLeftover(rs, r);
    r
  }

  lemma TopCitiesSize(rs: seq<Review>, r: seq<(string, nat)>)
    requires |r| == Min(TopCount, |CityCounts(rs)|)
    ensures |r| == Min(TopCount, |set k | 0 <= k < |rs| :: rs[k].city|)
  {
    CitiesFacts(rs);
  }

  lemma TopCitiesOrder(r: seq<(string, nat)>)
    requires Ranking.SortedDesc(r, CountKey)
    ensures forall i, j :: 0 <= i < j < |r| ==> r[i].1 >= r[j].1
  {
    forall i, j | 0 <= i < j < |r| ensures r[i].1 >= r[j].1 {
      assert CountKey(r[i]) >= CountKey(r[j]);
    }
  }

  lemma TopCitiesRows(rs: seq<Review>, r: seq<(string, nat)>)
    requires multiset(r) <= multiset(CityCounts(rs))
    requires Ranking.NoDuplicates(CityCounts(rs)) ==> Ranking.NoDuplicates(r)
    ensures forall i :: 0 <= i < |r| ==> r[i].1 == CityCount(rs, r[i].0) >= 1
    ensures forall i, j :: 0 <= i < j < |r| ==> r[i].0 != r[j].0
  {
    var counts := CityCounts(rs);
    CitiesFacts(rs);
    forall i | 0 <= i < |r| ensures r[i] in counts {
      assert r[i] in multiset(r);
    }
    forall i, j | 0 <= i < j < |r| ensures r[i].0 != r[j].0 {
      assert r[i] in counts && r[j] in counts;
      assert r[i] != r[j];
    }
  }

  /** Every city of the table has its (city, count) pair in `CityCounts`. */
  lemma CityPairs(rs: seq<Review>, k: nat)
    requires k < |rs|
    ensures (rs[k].city, CityCount(rs, rs[k].city)) in CityCounts(rs)
  {
    var d := Distinct(Cities(rs));
    assert Cities(rs)[k] == rs[k].city;
    assert rs[k].city in d;
    var a :| 0 <= a < |d| && d[a] == rs[k].city;
    assert CityCounts(rs)[a] == (rs[k].city, CityCount(rs, rs[k].city));
  }

  lemma TopCitiesLeftover(rs: seq<Review>, r: seq<(string, nat)>)
    requires forall x, y :: x in CityCounts(rs) && x !in r && y in r ==> CountKey(x) <= CountKey(y)
    ensures forall k, i :: 0 <= k < |rs| && 0 <= i < |r| && (rs[k].city, CityCount(rs, rs[k].city)) !in r
              ==> CityCount(rs, rs[k].city) <= r[i].1
  {
    forall k, i | 0 <= k < |rs| && 0 <= i < |r| && (rs[k].city, CityCount(rs, rs[k].city)) !in r
      ensures CityCount(rs, rs[k].city) <= r[i].1
    {
      var q := (rs[k].city, CityCount(rs, rs[k].city));
      CityPairs(rs, k);
      assert r[i] in r;
      assert CountKey(q) <= CountKey(r[i]);
    }
  }

  /** The pair list `value_counts` produces: one pair per city, with its count. */
  lemma CitiesFacts(rs: seq<Review>)
    ensures |CityCounts(rs)| == |set k | 0 <= k < |rs| :: rs[k].city|
    ensures Ranking.NoDuplicates(CityCounts(rs))
    ensures forall i :: 0 <= i < |CityCounts(rs)| ==> CityCounts(rs)[i].1 == CityCount(rs, CityCounts(rs)[i].0) >= 1
  {
    var d := Distinct(Cities(rs));
    var counts := CityCounts(rs);
    NoDuplicatesCardinality(d);
    assert (set x | x in d) == (set k | 0 <= k < |rs| :: rs[k].city) by {
      forall x | x in d ensures x in (set k | 0 <= k < |rs| :: rs[k].city) {
        assert x in Cities(rs);
        var k :| 0 <= k < |rs| && Cities(rs)[k] == x;
        assert rs[k].city == x;
      }
      forall k | 0 <= k < |rs| ensures rs[k].city in d {
        assert Cities(rs)[k] == rs[k].city;
        assert rs[k].city in Cities(rs);
      }
    }
    forall i | 0 <= i < |counts| ensures counts[i].1 >= 1 {
      assert d[i] in Cities(rs);
      var k :| 0 <= k < |rs| && Cities(rs)[k] == d[i];
      CityCountPositive(rs, k);
    }
  }

  // ----- averages and recent reviews -----

  function Ratings(rs: seq<Review>): seq<real>
  {
    seq(|rs|, i requires 0 <= i < |rs| => rs[i].rating)
  }

  function Sentiments(rs: seq<Review>): seq<real>
  {
    seq(|rs|, i requires 0 <= i < |rs| => rs[i].sentiment)
  }

  /**
   * `round(mean, 2)` of a column; `None` stands for the NaN pandas gives for an empty column.
   * The result is within half a hundredth of the exact mean and stays inside any bounds of the
   * values that are whole numbers of hundredths.
   */
  function RoundedMean(s: seq<real>, lo: int, hi: int): (r: Option<real>)
    ensures r.None? <==> s == []
    ensures r.Some? ==> r.value == Round2(Mean(s))
    ensures r.Some? ==> Abs(r.value - Mean(s)) <= 0.005 && (r.value * 100.0).Floor as real == r.value * 100.0
    ensures (r.Some? && forall i :: 0 <= i < |s| ==> lo as real / 100.0 <= s[i] <= hi as real / 100.0)
            ==> lo as real / 100.0 <= r.value <= hi as real / 100.0
  {
    if s == [] then None
    else
      if forall i :: 0 <= i < |s| ==> lo as real / 100.0 <= s[i] <= hi as real / 100.0 then
        MeanBounds(s, lo as real / 100.0, hi as real / 100.0);
        Round2Within(Mean(s), lo, hi);
        Some(Round2(Mean(s)))
      else
        Some(Round2(Mean(s)))
  }

  /** `get_avg_rating` over one review table; with every rating in [1, 5] the average is too. */
  function AverageRating(rs: seq<Review>): (r: Option<real>)
    ensures r.None? <==> rs == []
    ensures r.Some? ==> r.value == Round2(Mean(Ratings(rs)))
    ensures r.Some? ==> Abs(r.value - Mean(Ratings(rs))) <= 0.005
    ensures r.Some? && (forall k :: 0 <= k < |rs| ==> 1.0 <= rs[k].rating <= 5.0) ==> 1.0 <= r.value <= 5.0
  {
    RoundedMean(Ratings(rs), 100, 500)
  }

  /** `get_enthusiasm_score` over one review table; with every sentiment in [0, 10] so is the score. */
  function EnthusiasmScore(rs: seq<Review>): (r: Option<real>)
    ensures r.None? <==> rs == []
    ensures r.Some? ==> r.value == Round2(Mean(Sentiments(rs)))
    ensures r.Some? ==> Abs(r.value - Mean(Sentiments(rs))) <= 0.005
    ensures r.Some? && (forall k :: 0 <= k < |rs| ==> 0.0 <= rs[k].sentiment <= 10.0) ==> 0.0 <= r.value <= 10.0
  {
    RoundedMean(Sentiments(rs), 0, 1000)
  }

  /** `get_recent_reviews`: the first three review texts (fewer if there are fewer), verbatim, in order. */
  function RecentReviews(rs: seq<Review>): (r: seq<string>)
    ensures |r| == Min(TopCount, |rs|)
    ensures forall i :: 0 <= i < |r| ==> r[i] == rs[i].text
  {
    seq(Min(TopCount, |rs|), i requires 0 <= i < Min(TopCount, |rs|) => rs[i].text)
  }
}
