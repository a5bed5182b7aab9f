/** backend/utils/mapUtils.js: the OpenStreetMap link for a pair of
    coordinates and the cleaned 360° photo link. */
module MapUtils {
  import opened Strings

  /** A finite number written in plain decimal notation: sign, whole part and
      the fraction digits (no trailing zero). */
  datatype Decimal = Decimal(negative: bool, whole: nat, fraction: string)

  /** Numbers below 10^21 in magnitude and, unless zero, at least 10^-6:
      the range in which JavaScript prints a number without an exponent. */
  const PLAIN_LIMIT: nat := 1_000_000_000_000_000_000_000

  predicate ValidDecimal(d: Decimal) {
    (forall i :: 0 <= i < |d.fraction| ==> IsDigit(d.fraction[i]))
    && (d.fraction == [] || d.fraction[|d.fraction| - 1] != '0')
    && (d.negative ==> d.whole > 0 || d.fraction != [])
    && d.whole < PLAIN_LIMIT
    && (d.whole == 0 && |d.fraction| > 6 ==> d.fraction[..6] != "000000")
  }

  /** A JavaScript number. */
  datatype JsNumber = Finite(d: Decimal) | NaN | PosInfinity | NegInfinity

  predicate ValidNumber(n: JsNumber) { n.Finite? ==> ValidDecimal(n.d) }

  /** An argument as the function sees it: a number or anything else. */
  datatype Arg = Number(n: JsNumber) | NotNumber

  /** `String(n)` for the numbers modelled. */
  function Show(n: JsNumber): (s: string)
    ensures |s| > 0
  {
    match n
    case NaN => "NaN"
    case PosInfinity => "Infinity"
    case NegInfinity => "-Infinity"
    case Finite(d) =>
      (if d.negative then "-" else "") + NatToString(d.whole)
      + (if d.fraction == [] then "" else "." + d.fraction)
  }

  /** Characters that can appear in a printed number: digits, the sign, the
      point and the letters of `NaN` and `Infinity`. */
  predicate IsNumberChar(c: char) {
    IsDigit(c) || c == '-' || c == '.' || IsAsciiUpper(c) || IsAsciiLower(c)
  }

  /** A printed number holds no `&`, `#` or `/`, so it cannot end a URL part early. */
  lemma NoSeparators(n: JsNumber)
    requires ValidNumber(n)
    ensures '&' !in Show(n) && '#' !in Show(n) && '/' !in Show(n)
  {
    var a := Show(n);
    ShowChars(n);
    forall k | 0 <= k < |a| ensures a[k] != '&' && a[k] != '#' && a[k] != '/' { assert IsNumberChar(a[k]); }
  }

  lemma ShowChars(n: JsNumber)
    requires ValidNumber(n)
    ensures forall i :: 0 <= i < |Show(n)| ==> IsNumberChar(Show(n)[i])
  {
    if n.Finite? {
      var d := n.d;
      var sign := if d.negative then "-" else "";
      var w := NatToString(d.whole);
      var f := if d.fraction == [] then "" else "." + d.fraction;
      assert Show(n) == sign + w + f;
      forall i | 0 <= i < |Show(n)| ensures IsNumberChar(Show(n)[i]) {
        if i < |sign| {
        } else if i < |sign| + |w| {
          assert Show(n)[i] == w[i - |sign|];
        } else {
          assert Show(n)[i] == f[i - |sign| - |w|];
        }
      }
    }
  }

  const MAP_BASE := "https://www.openstreetmap.org/?mlat="
  const MLON := "&mlon="
  const FRAGMENT := "#map=17/"

  /** `#map=17/<lat>/<lon>`: the view the map opens on. */
  function Fragment(lat: JsNumber, lon: JsNumber): string {
    FRAGMENT + Show(lat) + "/" + Show(lon)
  }

  function MapUrl(lat: JsNumber, lon: JsNumber): string {
    MAP_BASE + Show(lat) + MLON + Show(lon) + Fragment(lat, lon)
  }

  /** `getMapUrl(latitude, longitude)`: null unless both are numbers. */
  function GetMapUrl(latitude: Arg, longitude: Arg): (r: Option<string>)
    ensures r.Some? <==> latitude.Number? && longitude.Number?
  {
    if latitude.NotNumber? || longitude.NotNumber? then None
    else Some(MapUrl(latitude.n, longitude.n))
  }

  // ---------------------------------------------------------------------------
  // Reading a link back
  // ---------------------------------------------------------------------------

  /** Position of the first `c` in `s`, or `|s|`. */
  function IndexOf(s: string, c: char): (i: nat)
    ensures i <= |s| && (i < |s| ==> s[i] == c)
    ensures forall k :: 0 <= k < i ==> s[k] != c
  {
    if s == [] then 0 else if s[0] == c then 0 else 1 + IndexOf(s[1..], c)
  }

  lemma {:induction false} IndexOfAfter(a: string, b: string, c: char)
    requires c !in a && |b| > 0 && b[0] == c
    ensures IndexOf(a + b, c) == |a|
  {
    if a != [] {
      assert (a + b)[1..] == a[1..] + b;
      IndexOfAfter(a[1..], b, c);
    }
  }

  predicate AllDigits(s: string) { forall i :: 0 <= i < |s| ==> IsDigit(s[i]) }

  /** Reads the digits of a number without its sign. */
  function ParseUnsigned(body: string, negative: bool): Option<JsNumber>
  {
    var dot := IndexOf(body, '.');
    var w := body[..dot];
    var f := if dot < |body| then body[dot + 1..] else "";
    if w != [] && AllDigits(w) && AllDigits(f) && (dot < |body| ==> f != [])
    then Some(Finite(Decimal(negative, ParseDigits(w), f)))
    else None
  }

  /** Reads a printed number. */
  function ParseNumber(s: string): Option<JsNumber>
  {
    if s == "NaN" then Some(NaN)
    else if s == "Infinity" then Some(PosInfinity)
    else if s == "-Infinity" then Some(NegInfinity)
    else if |s| > 0 && s[0] == '-' then ParseUnsigned(s[1..], true)
    else ParseUnsigned(s, false)
  }

  /** The digits of a decimal, without its sign. */
  function ShowUnsigned(d: Decimal): string {
    NatToString(d.whole) + (if d.fraction == [] then "" else "." + d.fraction)
  }

  lemma ShowFinite(d: Decimal)
    ensures Show(Finite(d)) == (if d.negative then "-" else "") + ShowUnsigned(d)
    ensures IsDigit(ShowUnsigned(d)[0])
  {
  }

  lemma {:induction false} ParseShowUnsigned(d: Decimal, negative: bool)
    requires AllDigits(d.fraction)
    ensures ParseUnsigned(ShowUnsigned(d), negative) == Some(Finite(Decimal(negative, d.whole, d.fraction)))
  {
    var w := NatToString(d.whole);
    var body := ShowUnsigned(d);
    ParseNatToString(d.whole);
    if d.fraction == [] {
      assert body == w;
      assert IndexOf(body, '.') == |w| by {
        assert forall k :: 0 <= k < |w| ==> body[k] != '.';
      }
      assert body[..|w|] == w;
    } else {
      var f := "." + d.fraction;
      assert body == w + f;
      assert '.' !in w by { assert forall k :: 0 <= k < |w| ==> IsDigit(w[k]); }
      IndexOfAfter(w, f, '.');
      assert body[..|w|] == w;
      assert body[|w| + 1..] == d.fraction;
    }
  }

  lemma ParseShowNonNegative(d: Decimal)
    requires ValidDecimal(d) && !d.negative
    ensures ParseNumber(Show(Finite(d))) == Some(Finite(d))
  {
    ShowFinite(d);
    assert Show(Finite(d)) == ShowUnsigned(d);
    ParseShowUnsigned(d, false);
    ReadsUnsigned(ShowUnsigned(d));
  }

  lemma ParseShowNegative(d: Decimal)
    requires ValidDecimal(d) && d.negative
    ensures ParseNumber(Show(Finite(d))) == Some(Finite(d))
  {
    ShowFinite(d);
    assert Show(Finite(d)) == "-" + ShowUnsigned(d);
    ParseShowUnsigned(d, true);
    ReadsNegative(ShowUnsigned(d));
  }

  /** A text starting with a digit is read as an unsigned number. */
  lemma ReadsUnsigned(s: string)
    requires |s| > 0 && IsDigit(s[0])
    ensures ParseNumber(s) == ParseUnsigned(s, false)
  {
    assert s != "NaN" && s != "Infinity" && s != "-Infinity" by {
      assert "NaN"[0] == 'N' && "Infinity"[0] == 'I' && "-Infinity"[0] == '-';
    }
  }

  /** A minus sign before a digit makes the rest a negative number. */
  lemma ReadsNegative(body: string)
    requires |body| > 0 && IsDigit(body[0])
    ensures ParseNumber("-" + body) == ParseUnsigned(body, true)
  {
    var s := "-" + body;
    assert s[1..] == body;
    assert s != "NaN" && s != "Infinity" by {
      assert s[0] == '-';
    }
    assert s != "-Infinity" by {
      assert s[1] == body[0];
    }
  }

  /** Printing then reading a number gives it back. */
  lemma ParseShow(n: JsNumber)
    requires ValidNumber(n)
    ensures ParseNumber(Show(n)) == Some(n)
  {
    if n.Finite? {
      if n.d.negative {
        ParseShowNegative(n.d);
      } else {
        ParseShowNonNegative(n.d);
      }
    }
  }

  /** Reads `mlat` and `mlon` back from a map link. */
  function ParseMapUrl(url: string): Option<(JsNumber, JsNumber)>
  {
    if !IsPrefix(MAP_BASE, url) then None
    else
      var rest := url[|MAP_BASE|..];
      var i := IndexOf(rest, '&');
      if !IsPrefix(MLON, rest[i..]) then None
      else
        var rest2 := rest[i + |MLON|..];
        var j := IndexOf(rest2, '#');
        match (ParseNumber(rest[..i]), ParseNumber(rest2[..j]))
        case (Some(a), Some(b)) => Some((a, b))
        case _ => None
  }

  /** A link is split at the first `&` and the first `#` after it. */
  lemma {:induction false} ParseMapUrlSplits(a: string, b: string, tail: string)
    requires '&' !in a && '#' !in b && |tail| > 0 && tail[0] == '#'
    ensures ParseMapUrl(MAP_BASE + a + MLON + b + tail)
         == match (ParseNumber(a), ParseNumber(b))
            case (Some(x), Some(y)) => Some((x, y))
            case _ => None
  {
    var url := MAP_BASE + a + MLON + b + tail;
    var rest := a + (MLON + (b + tail));
    assert url == MAP_BASE + rest;
    AfterBase(rest);
    SplitsAtAmpersand(a, b, tail);
  }

  lemma AfterBase(rest: string)
    ensures IsPrefix(MAP_BASE, MAP_BASE + rest) && (MAP_BASE + rest)[|MAP_BASE|..] == rest
  {
    assert (MAP_BASE + rest)[..|MAP_BASE|] == MAP_BASE;
  }

  lemma SplitsAtAmpersand(a: string, b: string, tail: string)
    requires '&' !in a && '#' !in b && |tail| > 0 && tail[0] == '#'
    ensures var rest := a + (MLON + (b + tail));
            IndexOf(rest, '&') == |a| && rest[..|a|] == a && IsPrefix(MLON, rest[|a|..])
            && rest[|a| + |MLON|..] == b + tail
            && IndexOf(b + tail, '#') == |b| && (b + tail)[..|b|] == b
  {
    var rest := a + (MLON + (b + tail));
    IndexOfAfter(a, MLON + (b + tail), '&');
    assert rest[..|a|] == a;
    assert rest[|a|..] == MLON + (b + tail);
    assert rest[|a|..][..|MLON|] == MLON;
    assert rest[|a| + |MLON|..] == b + tail;
    IndexOfAfter(b, tail, '#');
    assert (b + tail)[..|b|] == b;
  }

  /** Reads the map view back from a link: after the first `#`, the zoom 17
      and the two numbers separated by `/`. */
  function ParseMapView(url: string): Option<(JsNumber, JsNumber)>
  {
    var view := url[IndexOf(url, '#')..];
    if !IsPrefix(FRAGMENT, view) then None
    else
      var rest := view[|FRAGMENT|..];
      var k := IndexOf(rest, '/');
      if k == |rest| then None
      else
        match (ParseNumber(rest[..k]), ParseNumber(rest[k + 1..]))
        case (Some(a), Some(b)) => Some((a, b))
        case _ => None
  }

  /** The fixed parts before the view hold no `#`. */
  lemma NoHashBefore(a: string, b: string)
    requires '#' !in a && '#' !in b
    ensures '#' !in MAP_BASE + a + MLON + b
  {
    assert forall i :: 0 <= i < |MAP_BASE| ==> MAP_BASE[i] != '#';
    assert forall i :: 0 <= i < |MLON| ==> MLON[i] != '#';
    assert MAP_BASE + a + MLON + b == MAP_BASE + (a + (MLON + b));
  }

  /** A view is split at the first `#` and the first `/` after the zoom. */
  lemma {:induction false} ParseMapViewSplits(pre: string, c: string, d: string)
    requires '#' !in pre && '/' !in c
    ensures ParseMapView(pre + (FRAGMENT + c + "/" + d))
         == match (ParseNumber(c), ParseNumber(d))
            case (Some(x), Some(y)) => Some((x, y))
            case _ => None
  {
    var view := FRAGMENT + c + "/" + d;
    IndexOfAfter(pre, view, '#');
    assert (pre + view)[|pre|..] == view;
    assert view[..|FRAGMENT|] == FRAGMENT;
    var rest := c + ("/" + d);
    assert view[|FRAGMENT|..] == rest;
    IndexOfAfter(c, "/" + d, '/');
    assert rest[..|c|] == c && rest[|c| + 1..] == d;
  }

  /** The view of the link made for two numbers opens at zoom 17 on exactly
      those numbers. */
  lemma MapViewRoundTrip(lat: JsNumber, lon: JsNumber)
    requires ValidNumber(lat) && ValidNumber(lon)
    ensures GetMapUrl(Number(lat), Number(lon)).Some?
    ensures ParseMapView(GetMapUrl(Number(lat), Number(lon)).value) == Some((lat, lon))
  {
    NoSeparators(lat);
    NoSeparators(lon);
    var pre := MAP_BASE + Show(lat) + MLON + Show(lon);
    NoHashBefore(Show(lat), Show(lon));
    assert MapUrl(lat, lon) == pre + (FRAGMENT + Show(lat) + "/" + Show(lon));
    ParseMapViewSplits(pre, Show(lat), Show(lon));
    ParseShow(lat);
    ParseShow(lon);
  }

  /** The link made for two numbers carries exactly those numbers. */
  lemma MapUrlRoundTrip(lat: JsNumber, lon: JsNumber)
    requires ValidNumber(lat) && ValidNumber(lon)
    ensures GetMapUrl(Number(lat), Number(lon)).Some?
    ensures ParseMapUrl(GetMapUrl(Number(lat), Number(lon)).value) == Some((lat, lon))
  {
    NoSeparators(lat);
    NoSeparators(lon);
    ParseMapUrlSplits(Show(lat), Show(lon), Fragment(lat, lon));
    ParseShow(lat);
    ParseShow(lon);
  }

  // ---------------------------------------------------------------------------
  // 360° photo link
  // ---------------------------------------------------------------------------

  /** `get360Link(photo360Link)`; `None` stands for a value that is not a string. */
  function Get360Link(photo360Link: Option<string>): (r: Option<string>)
    ensures r.Some? <==> photo360Link.Some? && IsPrefix("http", Trim(photo360Link.value))
    ensures r.Some? ==> r.value == Trim(photo360Link.value)
  {
    match photo360Link
    case None => None
    case Some(link) =>
      if link != "" && IsPrefix("http", Trim(link)) then Some(Trim(link)) else None
  }

  /** A link returned is returned unchanged when passed again. */
  lemma Get360LinkStable(link: Option<string>)
    requires Get360Link(link).Some?
    ensures Get360Link(Get360Link(link)) == Get360Link(link)
  {
    TrimIdempotent(link.value);
  }

  /** A returned link has no white space at either end. */
  lemma Get360LinkTrimmed(link: Option<string>)
    requires Get360Link(link).Some?
    ensures var r := Get360Link(link).value;
            !IsSpace(r[0]) && !IsSpace(r[|r| - 1]) && IsPrefix("http", r)
  {
  }
}
