/**
 * The place table of `get_places_info`: one mention per (review, place tag), grouped by place,
 * with the mean of the rounded sentiments and the number of mentions per place. Group keys come
 * out in ascending string order, as `groupby` sorts them.
 */
module Places {
  import opened Records
  import opened Stats
  import Text
  import Ranking

  /** One mention per tag, each with sentiment `v`, in tag order. */
  function TagMentions(tags: seq<string>, v: real): (ms: seq<Mention>)
    ensures |ms| == |tags|
    ensures forall j :: 0 <= j < |tags| ==> ms[j] == Mention(tags[j], v)
  {
    if tags == [] then [] else [Mention(tags[0], v)] + TagMentions(tags[1..], v)
  }

  /** The mentions one review contributes: its tags, each with its rounded sentiment. */
  function ReviewMentions(r: Review): seq<Mention>
  {
    TagMentions(r.places, Round2(r.sentiment))
  }

  /** All mentions of a review table, reviews in table order. */
  function Mentions(rs: seq<Review>): seq<Mention>
  {
    if rs == [] then [] else Mentions(rs[..|rs| - 1]) + ReviewMentions(rs[|rs| - 1])
  }

  /** The number of (review, place tag) pairs of a review table. */
  function TotalPlaces(rs: seq<Review>): nat
  {
    if rs == [] then 0 else TotalPlaces(rs[..|rs| - 1]) + |rs[|rs| - 1].places|
  }

  lemma {:induction false} MentionsCount(rs: seq<Review>)
    ensures |Mentions(rs)| == TotalPlaces(rs)
  {
    if rs != [] {
      MentionsCount(rs[..|rs| - 1]);
    }
  }

  /** The nested loop of `get_places_info` that collects the mentions. */
  method CollectMentions(rs: seq<Review>) returns (ms: seq<Mention>)
    ensures ms == Mentions(rs)
  {
    ms := [];
    var i := 0;
    while i < |rs|
      invariant 0 <= i <= |rs|
      invariant ms == Mentions(rs[..i])
    {
      var r := rs[i];
      var j := 0;
      while j < |r.places|
        invariant 0 <= j <= |r.places|
        invariant ms == Mentions(rs[..i]) + ReviewMentions(r)[..j]
      {
        assert ReviewMentions(r)[..j + 1] == ReviewMentions(r)[..j] + [Mention(r.places[j], Round2(r.sentiment))];
        ms := ms + [Mention(r.places[j], Round2(r.sentiment))];
        j := j + 1;
      }
      assert ReviewMentions(r)[..j] == ReviewMentions(r);
      assert rs[..i + 1][..i] == rs[..i];
      i := i + 1;
    }
    assert rs[..|rs|] == rs;
  }

  /** The sentiments of the mentions of place `p`, in mention order. */
  function SentimentsOf(ms: seq<Mention>, p: string): seq<real>
  {
    if ms == [] then []
    else (if ms[0].place == p then [ms[0].sentiment] else []) + SentimentsOf(ms[1..], p)
  }

  /** How many mentions name place `p`. */
  function Frequency(ms: seq<Mention>, p: string): nat
  {
    |SentimentsOf(ms, p)|
  }

  predicate Ascending(ks: seq<string>)
  {
    forall i, j :: 0 <= i < j < |ks| ==> Text.Less(ks[i], ks[j])
  }

  lemma AscendingNoDuplicates(ks: seq<string>)
    requires Ascending(ks)
    ensures Ranking.NoDuplicates(ks)
  {
    forall i, j | 0 <= i < j < |ks| ensures ks[i] != ks[j] {
      Text.LessIrreflexive(ks[i]);
    }
  }

  lemma LessThanAll(k: string, ks: seq<string>)
    requires Ascending(ks) && ks != [] && Text.Less(k, ks[0])
    ensures forall j :: 0 <= j < |ks| ==> Text.Less(k, ks[j])
  {
    forall j | 1 <= j < |ks| ensures Text.Less(k, ks[j]) {
      Text.LessTransitive(k, ks[0], ks[j]);
    }
  }

  /** Adds key `k` to an ascending key list unless it is already there. */
  function InsertKey(k: string, ks: seq<string>): (r: seq<string>)
    requires Ascending(ks)
    ensures Ascending(r)
    ensures forall y :: y in r <==> y == k || y in ks
  {
    if ks == [] then [k]
    else if k == ks[0] then ks
    else if Text.Less(k, ks[0]) then
      LessThanAll(k, ks);
      [k] + ks
    else
      Text.LessTotal(k, ks[0]);
      var t := InsertKey(k, ks[1..]);
      assert ks == [ks[0]] + ks[1..];
      assert forall j :: 0 <= j < |t| ==> t[j] in t;
      [ks[0]] + t
  }

  /** The group keys: every place mentioned, once, in ascending order. */
  function PlaceKeys(ms: seq<Mention>): (ks: seq<string>)
    ensures Ascending(ks)
    ensures forall p :: p in ks <==> Frequency(ms, p) > 0
  {
    if ms == [] then [] else InsertKey(ms[0].place, PlaceKeys(ms[1..]))
  }

  /**
   * `groupby('places').agg({'sentiment': 'mean', 'frequency': 'sum'})` over the mentions: one
   * row per place mentioned, places ascending, each with its number of mentions and the mean of
   * their sentiments.
   */
  function GroupByPlace(ms: seq<Mention>): (t: seq<PlaceStat>)
    ensures forall i, j :: 0 <= i < j < |t| ==> Text.Less(t[i].place, t[j].place)
    ensures forall i :: 0 <= i < |t| ==>
              && t[i].frequency == Frequency(ms, t[i].place) >= 1
              && t[i].sentiment == Mean(SentimentsOf(ms, t[i].place))
    ensures forall p :: Frequency(ms, p) > 0 <==> exists i :: 0 <= i < |t| && t[i].place == p
  {
    var ks := PlaceKeys(ms);
    var t := seq(|ks|, i requires 0 <= i < |ks| =>
      assert ks[i] in ks;
      PlaceStat(ks[i], Mean(SentimentsOf(ms, ks[i])), Frequency(ms, ks[i])));
    assert forall i :: 0 <= i < |t| ==> t[i].place == ks[i];
    t
  }

  /**
   * The place table `get_places_info` stores for a review table: its places are distinct and
   * are exactly the place tags the reviews use.
   */
  function PlaceTable(rs: seq<Review>): (t: seq<PlaceStat>)
    ensures UniquePlaces(t)
    ensures PlaceSet(t) == TagSet(rs)
  {
    var ms := Mentions(rs);
    var t := GroupByPlace(ms);
    forall i, j | 0 <= i < j < |t| ensures t[i].place != t[j].place {
      Text.LessIrreflexive(t[i].place);
    }
    GroupedPlaces(rs);
    t
  }

  /** The places the grouping of a table's mentions yields are exactly the tags its reviews use. */
  lemma GroupedPlaces(rs: seq<Review>)
    ensures PlaceSet(GroupByPlace(Mentions(rs))) == TagSet(rs)
  {
    forall p ensures p in PlaceSet(GroupByPlace(Mentions(rs))) <==> p in TagSet(rs) {
      GroupedPlace(rs, p);
    }
  }

  /**
   * One place is a group key exactly when some review names it: the grouping has a row for
   * `p` exactly when some mention names `p`, and the mentions of `p` are one rounded sentiment
   * per time a review names `p`.
   */
  lemma GroupedPlace(rs: seq<Review>, p: string)
    ensures p in PlaceSet(GroupByPlace(Mentions(rs))) <==> p in TagSet(rs)
  {
    var ms := Mentions(rs);
    var t := GroupByPlace(ms);
    SentimentsOfMentions(rs, p);
    RoundedSentimentsNonEmpty(rs, p);
    if p in PlaceSet(t) {
      var i :| 0 <= i < |t| && t[i].place == p;
      assert Frequency(ms, p) > 0;
      var k :| 0 <= k < |rs| && p in rs[k].places;
      assert p in TagSet(rs);
    }
    if p in TagSet(rs) {
      var k :| 0 <= k < |rs| && p in rs[k].places;
      assert Frequency(ms, p) > 0;
      var i :| 0 <= i < |t| && t[i].place == p;
      assert p in PlaceSet(t);
    }
  }

  function TotalFrequency(t: seq<PlaceStat>): nat
  {
    if t == [] then 0 else t[0].frequency + TotalFrequency(t[1..])
  }

  /** Place keys are distinct: no two rows of a place table name the same place. */
  predicate UniquePlaces(t: seq<PlaceStat>)
  {
    forall i, j :: 0 <= i < j < |t| ==> t[i].place != t[j].place
  }

  /** The places named by the rows of a place table. */
  function PlaceSet(t: seq<PlaceStat>): set<string>
  {
    set i | 0 <= i < |t| :: t[i].place
  }

  /** Every place tag used by some review of the table. */
  function TagSet(rs: seq<Review>): set<string>
  {
    set k, p | 0 <= k < |rs| && p in rs[k].places :: p
  }

  // ----- review-level description of a place's row -----

  function Occurrences(tags: seq<string>, p: string): nat
  {
    if tags == [] then 0 else (if tags[0] == p then 1 else 0) + Occurrences(tags[1..], p)
  }

  function Repeat(v: real, n: nat): seq<real>
  {
    if n == 0 then [] else [v] + Repeat(v, n - 1)
  }

  /**
   * The rounded sentiment of every review that names `p`, once per time it names `p`,
   * reviews in table order.
   */
  function RoundedSentiments(rs: seq<Review>, p: string): seq<real>
  {
    if rs == [] then []
    else RoundedSentiments(rs[..|rs| - 1], p) + Repeat(Round2(rs[|rs| - 1].sentiment), Occurrences(rs[|rs| - 1].places, p))
  }

  lemma {:induction false} SentimentsOfConcat(a: seq<Mention>, b: seq<Mention>, p: string)
    ensures SentimentsOf(a + b, p) == SentimentsOf(a, p) + SentimentsOf(b, p)
  {
    if a != [] {
      assert (a + b)[1..] == a[1..] + b;
      SentimentsOfConcat(a[1..], b, p);
    } else {
      assert a + b == b;
    }
  }

  lemma {:induction false} SentimentsOfTags(tags: seq<string>, v: real, p: string)
    ensures SentimentsOf(TagMentions(tags, v), p) == Repeat(v, Occurrences(tags, p))
  {
    if tags != [] {
      SentimentsOfTags(tags[1..], v, p);
      assert TagMentions(tags, v)[1..] == TagMentions(tags[1..], v);
    }
  }

  /** Grouping the mentions gives, per place, exactly the review-level rounded sentiments. */
  lemma {:induction false} SentimentsOfMentions(rs: seq<Review>, p: string)
    ensures SentimentsOf(Mentions(rs), p) == RoundedSentiments(rs, p)
  {
    if rs != [] {
      var last := rs[|rs| - 1];
      SentimentsOfMentions(rs[..|rs| - 1], p);
      SentimentsOfConcat(Mentions(rs[..|rs| - 1]), ReviewMentions(last), p);
      SentimentsOfTags(last.places, Round2(last.sentiment), p);
    }
  }

  lemma {:induction false} OccurrencesPositive(tags: seq<string>, p: string)
    ensures Occurrences(tags, p) > 0 <==> p in tags
  {
    if tags != [] {
      OccurrencesPositive(tags[1..], p);
      assert tags == [tags[0]] + tags[1..];
    }
  }

  lemma {:induction false} RepeatLength(v: real, n: nat)
    ensures |Repeat(v, n)| == n
  {
    if n > 0 {
      RepeatLength(v, n - 1);
    }
  }

  lemma {:induction false} RoundedSentimentsNonEmpty(rs: seq<Review>, p: string)
    ensures |RoundedSentiments(rs, p)| > 0 <==> exists k :: 0 <= k < |rs| && p in rs[k].places
  {
    if rs != [] {
      var init := rs[..|rs| - 1];
      var last := rs[|rs| - 1];
      RoundedSentimentsNonEmpty(init, p);
      RepeatLength(Round2(last.sentiment), Occurrences(last.places, p));
      OccurrencesPositive(last.places, p);
      if exists k :: 0 <= k < |rs| && p in rs[k].places {
        var k :| 0 <= k < |rs| && p in rs[k].places;
        if k < |rs| - 1 {
          assert init[k] == rs[k];
        }
      }
      if exists k :: 0 <= k < |init| && p in init[k].places {
        var k :| 0 <= k < |init| && p in init[k].places;
        assert rs[k] == init[k];
      }
    }
  }

  // ----- the sum of the frequencies -----

  function CountKey(ks: seq<string>, p: string): nat
  {
    if ks == [] then 0 else (if ks[0] == p then 1 else 0) + CountKey(ks[1..], p)
  }

  function SumFrequencies(ks: seq<string>, ms: seq<Mention>): nat
  {
    if ks == [] then 0 else Frequency(ms, ks[0]) + SumFrequencies(ks[1..], ms)
  }

  lemma {:induction false} SumFrequenciesStep(ks: seq<string>, ms: seq<Mention>)
    requires ms != []
    ensures SumFrequencies(ks, ms) == CountKey(ks, ms[0].place) + SumFrequencies(ks, ms[1..])
  {
    if ks != [] {
      SumFrequenciesStep(ks[1..], ms);
    }
  }

  lemma {:induction false} CountKeyOnce(ks: seq<string>, p: string)
    requires Ranking.NoDuplicates(ks)
    ensures CountKey(ks, p) == if p in ks then 1 else 0
  {
    if ks != [] {
      assert ks == [ks[0]] + ks[1..];
      CountKeyOnce(ks[1..], p);
    }
  }

  lemma {:induction false} SumFrequenciesAll(ks: seq<string>, ms: seq<Mention>)
    requires Ranking.NoDuplicates(ks)
    requires forall i :: 0 <= i < |ms| ==> ms[i].place in ks
    ensures SumFrequencies(ks, ms) == |ms|
  {
    if ms == [] {
      SumFrequenciesEmpty(ks);
    } else {
      SumFrequenciesStep(ks, ms);
      CountKeyOnce(ks, ms[0].place);
      assert forall i :: 0 <= i < |ms[1..]| ==> ms[1..][i] == ms[i + 1];
      SumFrequenciesAll(ks, ms[1..]);
    }
  }

  lemma {:induction false} SumFrequenciesEmpty(ks: seq<string>)
    ensures SumFrequencies(ks, []) == 0
  {
    if ks != [] {
      SumFrequenciesEmpty(ks[1..]);
    }
  }

  lemma {:induction false} TotalFrequencyOfKeys(t: seq<PlaceStat>, ks: seq<string>, ms: seq<Mention>)
    requires |t| == |ks|
    requires forall i :: 0 <= i < |t| ==> t[i].frequency == Frequency(ms, ks[i])
    ensures TotalFrequency(t) == SumFrequencies(ks, ms)
  {
    if t != [] {
      TotalFrequencyOfKeys(t[1..], ks[1..], ms);
    }
  }

  lemma {:induction false} MentionedPlaceIsKey(ms: seq<Mention>, i: nat)
    requires i < |ms|
    ensures Frequency(ms, ms[i].place) > 0
  {
    if i > 0 {
      MentionedPlaceIsKey(ms[1..], i - 1);
    }
  }

  // ----- what `get_places_info` guarantees about the table it stores -----

  /** Each place's row: its frequency counts the tags naming it, its sentiment is their rounded mean. */
  lemma PlaceTableRows(rs: seq<Review>)
    ensures forall i :: 0 <= i < |PlaceTable(rs)| ==>
      && |RoundedSentiments(rs, PlaceTable(rs)[i].place)| > 0
      && PlaceTable(rs)[i].frequency == |RoundedSentiments(rs, PlaceTable(rs)[i].place)|
      && PlaceTable(rs)[i].sentiment == Mean(RoundedSentiments(rs, PlaceTable(rs)[i].place))
  {
    var t := PlaceTable(rs);
    var ks := PlaceKeys(Mentions(rs));
    forall i | 0 <= i < |t|
      ensures |RoundedSentiments(rs, t[i].place)| > 0
      ensures t[i].frequency == |RoundedSentiments(rs, t[i].place)|
      ensures t[i].sentiment == Mean(RoundedSentiments(rs, t[i].place))
    {
      assert ks[i] in ks;
      SentimentsOfMentions(rs, ks[i]);
    }
  }

  /** The frequencies add up to the number of (review, place tag) pairs. */
  lemma PlaceTableFrequencySum(rs: seq<Review>)
    ensures TotalFrequency(PlaceTable(rs)) == TotalPlaces(rs)
  {
    var ms := Mentions(rs);
    var ks := PlaceKeys(ms);
    AscendingNoDuplicates(ks);
    forall i | 0 <= i < |ms| ensures ms[i].place in ks {
      MentionedPlaceIsKey(ms, i);
    }
    SumFrequenciesAll(ks, ms);
    TotalFrequencyOfKeys(PlaceTable(rs), ks, ms);
    MentionsCount(rs);
  }

  lemma {:induction false} RepeatBounds(v: real, n: nat, lo: real, hi: real)
    requires lo <= v <= hi
    ensures forall i :: 0 <= i < |Repeat(v, n)| ==> lo <= Repeat(v, n)[i] <= hi
  {
    if n > 0 {
      RepeatBounds(v, n - 1, lo, hi);
    }
  }

  lemma {:induction false} RoundedSentimentsBounds(rs: seq<Review>, p: string)
    requires forall k :: 0 <= k < |rs| ==> 0.0 <= rs[k].sentiment <= 10.0
    ensures forall i :: 0 <= i < |RoundedSentiments(rs, p)| ==> 0.0 <= RoundedSentiments(rs, p)[i] <= 10.0
  {
    if rs != [] {
      var last := rs[|rs| - 1];
      RoundedSentimentsBounds(rs[..|rs| - 1], p);
      Round2Within(last.sentiment, 0, 1000);
      RepeatBounds(Round2(last.sentiment), Occurrences(last.places, p), 0.0, 10.0);
    }
  }

  /** With every review sentiment in [0, 10], every place sentiment is in [0, 10]. */
  lemma PlaceSentimentRange(rs: seq<Review>)
    requires forall k :: 0 <= k < |rs| ==> 0.0 <= rs[k].sentiment <= 10.0
    ensures forall i :: 0 <= i < |PlaceTable(rs)| ==> 0.0 <= PlaceTable(rs)[i].sentiment <= 10.0
  {
    PlaceTableRows(rs);
    forall i | 0 <= i < |PlaceTable(rs)| ensures 0.0 <= PlaceTable(rs)[i].sentiment <= 10.0 {
      var p := PlaceTable(rs)[i].place;
      RoundedSentimentsBounds(rs, p);
      MeanBounds(RoundedSentiments(rs, p), 0.0, 10.0);
    }
  }
}
