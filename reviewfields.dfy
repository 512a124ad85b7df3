/**
 * The per-field rules of the review scraper: the place tags of a category string, the city of
 * an address block, the star rating of a rating title, the sentiment of a scorer result, the
 * page count and page offset of a review listing, and the friend ID of a profile link.
 */
module ReviewFields {
  import opened Results
  import opened Text

  // ----- places -----

  lemma StripKeepsOut(s: string, c: char)
    requires c !in s
    ensures c !in Strip(s)
  {
    var r := Strip(s);
    StripFacts(s);
    var i := |s| - |TrimLeft(s)|;
    forall k | 0 <= k < |r| ensures r[k] != c {
      assert r[k] == s[i + k];
    }
  }

  lemma StripAllKeepOut(parts: seq<string>, c: char)
    requires forall i :: 0 <= i < |parts| ==> c !in parts[i]
    ensures forall i :: 0 <= i < |parts| ==> Trimmed(Strip(parts[i])) && c !in Strip(parts[i])
  {
    forall i | 0 <= i < |parts| ensures Trimmed(Strip(parts[i])) && c !in Strip(parts[i]) {
      StripFacts(parts[i]);
      StripKeepsOut(parts[i], c);
    }
  }

  /**
   * `[p.strip() for p in category.split(",")]`: one trimmed name per comma-separated piece, so a
   * string with `c` commas gives `c + 1` names and the empty string gives `[""]`.
   */
  function PlaceNames(category: string): (names: seq<string>)
    ensures |names| == |Split(category, ',')| == CountChar(category, ',') + 1
    ensures forall i :: 0 <= i < |names| ==> names[i] == Strip(Split(category, ',')[i])
    ensures forall i :: 0 <= i < |names| ==> Trimmed(names[i]) && ',' !in names[i]
    ensures category == "" ==> names == [""]
  {
    var parts := Split(category, ',');
    StripAllKeepOut(parts, ',');
    seq(|parts|, i requires 0 <= i < |parts| => Strip(parts[i]))
  }

  /** Trimmed names without commas survive joining with "," and splitting again. */
  lemma PlaceNamesJoin(names: seq<string>)
    requires |names| > 0
    requires forall i :: 0 <= i < |names| ==> Trimmed(names[i]) && ',' !in names[i]
    ensures PlaceNames(Join(names, ',')) == names
  {
    SplitJoin(names, ',');
    var r := PlaceNames(Join(names, ','));
    forall i | 0 <= i < |names| ensures r[i] == names[i] {
      StripTrimmed(names[i]);
    }
  }

  // ----- city -----

  /** `s[0:-6]`: `s` without its last six characters, which is "" when `s` has at most six. */
  function DropLast6(s: string): (r: string)
    ensures |r| == if |s| <= 6 then 0 else |s| - 6
    ensures r <= s
  {
    if |s| <= 6 then "" else s[..|s| - 6]
  }

  /**
   * The city of an address block: its second line when it has exactly two, its first otherwise,
   * less the last six characters (a space and a five-digit ZIP code). A block without text
   * lines has no first line (an `IndexError`).
   */
  function City(lines: seq<string>): (r: Result<string>)
    ensures r.Err? <==> lines == []
    ensures r.Ok? && |lines| == 2 ==> r.value <= lines[1] && |r.value| == Max(0, |lines[1]| - 6)
    ensures r.Ok? && |lines| != 2 ==> r.value <= lines[0] && |r.value| == Max(0, |lines[0]| - 6)
  {
    if |lines| == 2 then Ok(DropLast6(lines[1]))
    else if lines == [] then Err(NoAddressLine)
    else Ok(DropLast6(lines[0]))
  }

  /** A street line and a "city, state ZIP" line give the city and state. */
  lemma CityOfTwoLines(street: string, city: string, zip: string)
    requires |zip| == 6
    ensures City([street, city + zip]) == Ok(city)
  {
    assert (city + zip)[..|city|] == city;
  }

  /** With one line, or three or more, the first line gives the city. */
  lemma CityOfFirstLine(city: string, zip: string, more: seq<string>)
    requires |zip| == 6 && |more| != 1
    ensures City([city + zip] + more) == Ok(city)
  {
    assert ([city + zip] + more)[0] == city + zip;
    assert (city + zip)[..|city|] == city;
  }

  /** A child of an `<address>` element: a text node, or a tag such as `<br>`. */
  datatype AddressNode = TextNode(text: string) | Element

  /** `[l.strip() for l in location.contents if isinstance(l, str)]`. */
  function LocationLines(nodes: seq<AddressNode>): (lines: seq<string>)
    ensures |lines| <= |nodes|
    ensures forall i :: 0 <= i < |lines| ==> Trimmed(lines[i])
  {
    if nodes == [] then []
    else if nodes[0].TextNode? then [Strip(nodes[0].text)] + LocationLines(nodes[1..])
    else LocationLines(nodes[1..])
  }

  /** Text nodes alone give one stripped line each, in order. */
  lemma {:induction false} LocationLinesOfText(nodes: seq<AddressNode>)
    requires forall i :: 0 <= i < |nodes| ==> nodes[i].TextNode?
    ensures |LocationLines(nodes)| == |nodes|
    ensures forall i :: 0 <= i < |nodes| ==> LocationLines(nodes)[i] == Strip(nodes[i].text)
  {
    if nodes != [] {
      LocationLinesOfText(nodes[1..]);
    }
  }

  /** Tags alone give no line. */
  lemma {:induction false} LocationLinesOfTags(nodes: seq<AddressNode>)
    requires forall i :: 0 <= i < |nodes| ==> nodes[i].Element?
    ensures LocationLines(nodes) == []
  {
    if nodes != [] {
      LocationLinesOfTags(nodes[1..]);
    }
  }

  /** Tags between text nodes are dropped and the text nodes keep their order. */
  lemma {:induction false} LocationLinesConcat(a: seq<AddressNode>, b: seq<AddressNode>)
    ensures LocationLines(a + b) == LocationLines(a) + LocationLines(b)
  {
    if a != [] {
      assert (a + b)[0] == a[0] && (a + b)[1..] == a[1..] + b;
      LocationLinesConcat(a[1..], b);
    } else {
      assert a + b == b;
    }
  }

  // ----- rating -----

  function Pow10(n: nat): (p: nat)
    ensures p >= 1
  {
    if n == 0 then 1 else 10 * Pow10(n - 1)
  }

  /** The index of the first `c` in `s`, or `|s|` when there is none. */
  function IndexOf(s: string, c: char): (k: nat)
    ensures k <= |s| && c !in s[..k] && (k < |s| ==> s[k] == c)
  {
    if s == [] then 0
    else if s[0] == c then 0
    else
      var k := IndexOf(s[1..], c);
      assert s[..k + 1] == [s[0]] + s[1..][..k];
      k + 1
  }

  function Unsigned(t: string): string
  {
    if t != [] && (t[0] == '+' || t[0] == '-') then t[1..] else t
  }

  /**
   * The decimal literals Python's `float` accepts, less exponents, `inf`, `nan`, digit
   * underscores and non-ASCII Unicode decimal digits: an optional sign, then ASCII digits with at
   * most one point, at least one of them a digit.
   */
  predicate DecimalLiteral(t: string)
  {
    var u := Unsigned(t);
    CountChar(u, '.') <= 1
    && (forall i :: 0 <= i < |u| ==> IsDigit(u[i]) || u[i] == '.')
    && (exists i :: 0 <= i < |u| && IsDigit(u[i]))
  }

  /** The occurrences of `c` in a text whose first `c` is at `k`: that one and those after it. */
  lemma {:induction false} CountFrom(s: string, k: nat, c: char)
    requires k < |s| && s[k] == c && c !in s[..k]
    ensures CountChar(s, c) == 1 + CountChar(s[k + 1..], c)
  {
    if k > 0 {
      assert s[0] == s[..k][0];
      var t := s[1..][..k - 1];
      forall i | 0 <= i < |t| ensures t[i] != c {
        assert t[i] == s[..k][i + 1];
      }
      CountFrom(s[1..], k - 1, c);
      assert s[1..][k..] == s[k + 1..];
    }
  }

  /** The points of a text: its first one, if any, and those after it. */
  lemma PointCount(u: string)
    ensures var k := IndexOf(u, '.');
            CountChar(u, '.') == if k < |u| then 1 + CountChar(u[k + 1..], '.') else 0
  {
    var k := IndexOf(u, '.');
    if k < |u| {
      CountFrom(u, k, '.');
    } else {
      assert u[..k] == u;
      CountCharZero(u, '.');
    }
  }

  /** A text has at most one point exactly when none follows its first. */
  lemma PointAfterFirst(u: string)
    ensures var k := IndexOf(u, '.');
            var fp := if k < |u| then u[k + 1..] else "";
            CountChar(u, '.') <= 1 <==> '.' !in fp
  {
    var k := IndexOf(u, '.');
    var fp := if k < |u| then u[k + 1..] else "";
    PointCount(u);
    CountCharZero(fp, '.');
  }

  /** Digits with at most one point, one of them a digit, split at the first point into two digit runs. */
  lemma DecimalPartsOfLiteral(u: string)
    requires CountChar(u, '.') <= 1
    requires forall i :: 0 <= i < |u| ==> IsDigit(u[i]) || u[i] == '.'
    requires exists i :: 0 <= i < |u| && IsDigit(u[i])
    ensures var k := IndexOf(u, '.');
            var fp := if k < |u| then u[k + 1..] else "";
            AllDigits(u[..k]) && AllDigits(fp) && |u[..k]| + |fp| > 0
  {
    var k := IndexOf(u, '.');
    var ip := u[..k];
    var fp := if k < |u| then u[k + 1..] else "";
    PointAfterFirst(u);
    forall i | 0 <= i < |ip| ensures IsDigit(ip[i]) {
      assert ip[i] == u[i];
      assert ip[i] in ip;
    }
    forall i | 0 <= i < |fp| ensures IsDigit(fp[i]) {
      assert fp[i] == u[k + 1 + i];
      assert fp[i] in fp;
    }
    var j :| 0 <= j < |u| && IsDigit(u[j]);
    assert j != k;
  }

  /** Two digit runs, not both empty, joined by a point make a literal. */
  lemma LiteralOfDecimalParts(u: string)
    requires var k := IndexOf(u, '.');
             var fp := if k < |u| then u[k + 1..] else "";
             AllDigits(u[..k]) && AllDigits(fp) && |u[..k]| + |fp| > 0
    ensures CountChar(u, '.') <= 1
    ensures forall i :: 0 <= i < |u| ==> IsDigit(u[i]) || u[i] == '.'
    ensures exists i :: 0 <= i < |u| && IsDigit(u[i])
  {
    var k := IndexOf(u, '.');
    var ip := u[..k];
    var fp := if k < |u| then u[k + 1..] else "";
    PointAfterFirst(u);
    forall j | 0 <= j < |fp| ensures fp[j] != '.' {
      assert IsDigit(fp[j]);
    }
    forall i | 0 <= i < |u| ensures IsDigit(u[i]) || u[i] == '.' {
      if i < k {
        assert u[i] == ip[i];
      } else if i > k {
        assert u[i] == fp[i - k - 1];
      }
    }
    if |ip| > 0 {
      assert IsDigit(u[0]);
    } else {
      assert IsDigit(u[k + 1]);
    }
  }

  /** How `ParseDecimal` reads a literal: digits before the first point and digits after it. */
  lemma DecimalParts(u: string)
    ensures var k := IndexOf(u, '.');
            var fp := if k < |u| then u[k + 1..] else "";
            (CountChar(u, '.') <= 1
             && (forall i :: 0 <= i < |u| ==> IsDigit(u[i]) || u[i] == '.')
             && (exists i :: 0 <= i < |u| && IsDigit(u[i])))
            <==> AllDigits(u[..k]) && AllDigits(fp) && |u[..k]| + |fp| > 0
  {
    var k := IndexOf(u, '.');
    var fp := if k < |u| then u[k + 1..] else "";
    if AllDigits(u[..k]) && AllDigits(fp) && |u[..k]| + |fp| > 0 {
      LiteralOfDecimalParts(u);
    }
    if CountChar(u, '.') <= 1 && (forall i :: 0 <= i < |u| ==> IsDigit(u[i]) || u[i] == '.')
       && (exists i :: 0 <= i < |u| && IsDigit(u[i])) {
      DecimalPartsOfLiteral(u);
    }
  }

  /** `float(t)` on a decimal literal; any other text is a `ValueError`. */
  function ParseDecimal(t: string): (r: Result<real>)
    ensures r.Err? ==> r.error == MalformedRating
  {
    var u := Unsigned(t);
    var k := IndexOf(u, '.');
    var ip := u[..k];
    var fp := if k < |u| then u[k + 1..] else "";
    if AllDigits(ip) && AllDigits(fp) && |ip| + |fp| > 0 then
      var v := DigitsValue(ip) as real + DigitsValue(fp) as real / Pow10(|fp|) as real;
      Ok(if t != [] && t[0] == '-' then -v else v)
    else
      Err(MalformedRating)
  }

  /** Exactly the decimal literals parse. */
  lemma ParseDecimalAccepts(t: string)
    ensures ParseDecimal(t).Ok? <==> DecimalLiteral(t)
  {
    DecimalParts(Unsigned(t));
  }

  /** `float(title[0:3])`: the first three characters of the title, surrounding spaces ignored. */
  function ParseRating(title: string): (r: Result<real>)
    ensures r.Err? ==> r.error == MalformedRating
  {
    ParseDecimal(Strip(title[..Min(3, |title|)]))
  }

  /** A title parses exactly when its first three characters, trimmed, are a decimal literal. */
  lemma ParseRatingAccepts(title: string)
    ensures ParseRating(title).Ok? <==> DecimalLiteral(Strip(title[..Min(3, |title|)]))
  {
    ParseDecimalAccepts(Strip(title[..Min(3, |title|)]));
  }

  /** A literal "d.d" reads as the number it spells. */
  lemma ParsePointLiteral(d1: nat, d2: nat)
    requires d1 < 10 && d2 < 10
    ensures ParseDecimal([Digit(d1), '.', Digit(d2)]) == Ok(d1 as real + d2 as real / 10.0)
  {
    var lit := [Digit(d1), '.', Digit(d2)];
    assert IsDigit(lit[0]) && IsDigit(lit[2]);
    assert Unsigned(lit) == lit;
    assert IndexOf(lit, '.') == 1 by {
      assert lit[0] != '.' && lit[1..][0] == '.';
    }
    var ip := lit[..1];
    var fp := lit[1 + 1..];
    assert ip == [Digit(d1)] && fp == [Digit(d2)];
    DigitValue(d1);
    DigitValue(d2);
    assert Pow10(|fp|) == 10;
    var v := DigitsValue(ip) as real + DigitsValue(fp) as real / Pow10(|fp|) as real;
    assert v == d1 as real + d2 as real / 10.0;
    assert lit[0] != '-';
  }

  /** A title such as "4.0 star rating" gives the rating its first three characters spell. */
  lemma RatingOfTitle(d1: nat, d2: nat, rest: string)
    requires d1 < 10 && d2 < 10
    ensures ParseRating([Digit(d1), '.', Digit(d2)] + rest) == Ok(d1 as real + d2 as real / 10.0)
  {
    var title := [Digit(d1), '.', Digit(d2)] + rest;
    var lit := [Digit(d1), '.', Digit(d2)];
    assert title[..Min(3, |title|)] == lit;
    assert Trimmed(lit);
    StripTrimmed(lit);
    ParsePointLiteral(d1, d2);
  }

  // ----- sentiment -----

  /**
   * `5 * (score + 1)`: the scorer's result in [-1, 1] moved to the enthusiasm scale [0, 10];
   * the score can be read back from the sentiment.
   */
  function Sentiment(score: real): (s: real)
    ensures -1.0 <= score <= 1.0 <==> 0.0 <= s <= 10.0
    ensures score == s / 5.0 - 1.0
  {
    5.0 * (score + 1.0)
  }

  lemma SentimentPoints()
    ensures Sentiment(-1.0) == 0.0 && Sentiment(0.0) == 5.0 && Sentiment(1.0) == 10.0
  {
  }

  // ----- pages -----

  /** `math.ceil(total / 10.)`, `range` of which is empty for a non-positive count. */
  function NumPages(total: int): (n: nat)
    ensures n == 0 <==> total <= 0
    ensures n > 0 ==> 10 * (n - 1) < total <= 10 * n
  {
    if total <= 0 then 0 else (total + 9) / 10
  }

  /** The `pagestart` value of page `page`: its number followed by "0", which is `10 * page`. */
  function PageStart(page: nat): (s: string)
    ensures page >= 1 ==> s == NatToString(10 * page)
  {
    if page >= 1 then AppendZero(page); NatToString(page) + "0"
    else NatToString(page) + "0"
  }

  /** The `pagestart` of page `page` >= 1 denotes the offset `10 * page` of its first review. */
  lemma PageStartValue(page: nat)
    requires page >= 1
    ensures AllDigits(PageStart(page)) && DigitsValue(PageStart(page)) == 10 * page
  {
    NatToStringValue(10 * page);
  }

  // ----- friends -----

  /** `href.split("=")[1]`: the text after the first "=" up to the next one. */
  function FriendId(href: string): (r: Result<string>)
    ensures r.Ok? <==> '=' in href
    ensures r.Ok? ==> '=' !in r.value
  {
    var parts := Split(href, '=');
    CountCharZero(href, '=');
    if |parts| < 2 then Err(MalformedHref) else Ok(parts[1])
  }

  /** A link "prefix=id" (and anything after a further "=") gives `id`. */
  lemma FriendIdOf(a: string, b: string, rest: string)
    requires '=' !in a && '=' !in b
    requires rest == [] || rest[0] == '='
    ensures FriendId(a + "=" + b + rest) == Ok(b)
  {
    var tail := b + rest;
    assert a + "=" + b + rest == a + ("=" + tail);
    SplitPrefix(a, "=" + tail, '=');
    assert ("=" + tail)[1..] == tail;
    assert Split("=" + tail, '=') == [""] + Split(tail, '=');
    SplitPrefix(b, rest, '=');
    assert Split(rest, '=')[0] == "";
    assert Split(tail, '=')[0] == b;
  }

  /** `[friend['href'].split("=")[1] for friend in friends]`. */
  function FriendIds(hrefs: seq<string>): (r: Result<seq<string>>)
    ensures r.Ok? <==> forall i :: 0 <= i < |hrefs| ==> '=' in hrefs[i]
    ensures r.Ok? ==> |r.value| == |hrefs| && forall i :: 0 <= i < |hrefs| ==> FriendId(hrefs[i]) == Ok(r.value[i])
  {
    if hrefs == [] then Ok([])
    else
      var id :- FriendId(hrefs[0]);
      var rest :- FriendIds(hrefs[1..]);
      assert forall i :: 1 <= i < |hrefs| ==> hrefs[i] == hrefs[1..][i - 1];
      Ok([id] + rest)
  }
}
