/** The text side of the voice bridge (backend/utils/voiceUtils.js):
    the rewrite pipeline `preprocessTextForVoice`, the cache key and file
    name built from the raw text, language normalisation and the
    classification of synthesis failures. */
module VoiceText {
  import opened Strings

  // ---------------------------------------------------------------------------
  // Wording: what the clean-up stages keep
  // ---------------------------------------------------------------------------

  /** Characters the clean-up stages may add, drop or move: white space, the
      full stop of a pause, and the five bullets and arrows. */
  predicate IsPauseChar(c: char) { IsSpace(c) || c == '.' || IsSymbol(c) }

  /** The wording of a text: its characters other than pause characters, in order. */
  function Wording(s: string): string
  {
    if s == [] then []
    else if IsPauseChar(s[0]) then Wording(s[1..])
    else [s[0]] + Wording(s[1..])
  }

  lemma {:induction false} WordingConcat(a: string, b: string)
    ensures Wording(a + b) == Wording(a) + Wording(b)
    decreases |a|
  {
    if a != [] {
      assert (a + b)[0] == a[0] && (a + b)[1..] == a[1..] + b;
      WordingConcat(a[1..], b);
    } else {
      assert a + b == b;
    }
  }

  lemma WordingCons(c: char, rest: string)
    ensures Wording([c] + rest) == (if IsPauseChar(c) then Wording(rest) else [c] + Wording(rest))
  {
    assert ([c] + rest)[0] == c && ([c] + rest)[1..] == rest;
  }

  /** A pause put in front of a text leaves its wording alone. */
  lemma PauseFront(rest: string)
    ensures Wording(". " + rest) == Wording(rest) && Wording(" " + rest) == Wording(rest)
  {
    assert ". " + rest == ['.'] + (" " + rest);
    WordingCons('.', " " + rest);
    WordingCons(' ', rest);
  }

  /** Keeping the first character and rewording the rest keeps the wording. */
  lemma KeptFront(s: string, rest: string)
    requires |s| > 0 && Wording(rest) == Wording(s[1..])
    ensures Wording([s[0]] + rest) == Wording(s)
  {
    WordingCons(s[0], rest);
    WordingCons(s[0], s[1..]);
    assert s == [s[0]] + s[1..];
  }

  lemma {:induction false} WordingOfPauses(s: string)
    requires forall i :: 0 <= i < |s| ==> IsPauseChar(s[i])
    ensures Wording(s) == []
    decreases |s|
  {
    if s != [] {
      WordingOfPauses(s[1..]);
    }
  }

  lemma {:induction false} TrimStartKeepsWording(s: string)
    ensures Wording(TrimStart(s)) == Wording(s)
    decreases |s|
  {
    if s != [] && IsSpace(s[0]) {
      TrimStartKeepsWording(s[1..]);
    }
  }

  lemma {:induction false} TrimEndKeepsWording(s: string)
    ensures Wording(TrimEnd(s)) == Wording(s)
    decreases |s|
  {
    if s != [] && IsSpace(s[|s| - 1]) {
      var init := s[..|s| - 1];
      TrimEndKeepsWording(init);
      assert s == init + [s[|s| - 1]];
      WordingConcat(init, [s[|s| - 1]]);
      assert Wording([s[|s| - 1]]) == Wording([]);
    }
  }

  /** Trimming drops white space only, so the wording stays. */
  lemma TrimKeepsWording(s: string)
    ensures Wording(Trim(s)) == Wording(s)
  {
    TrimStartKeepsWording(s);
    TrimEndKeepsWording(TrimStart(s));
  }

  // ---------------------------------------------------------------------------
  // Markdown unwrapping
  // ---------------------------------------------------------------------------

  /** For `t` (the text right after an opening delimiter) and a candidate content
      length `k`: the smallest content length `>= k` whose content holds no line
      terminator and is followed by `d`. This is how the lazy `(.+?)` of the
      markdown patterns settles. */
  function CloseAfter(t: string, d: string, k: nat): (r: Option<nat>)
    requires 1 <= k && |d| > 0
    requires k - 1 <= |t| && NoLineTerminator(t[..k - 1])
    ensures r.Some? ==> k <= r.value && r.value + |d| <= |t|
                        && t[r.value..r.value + |d|] == d
                        && NoLineTerminator(t[..r.value])
    ensures r.Some? ==> forall j :: k <= j < r.value ==> !IsPrefix(d, t[j..])
    decreases |t| - k
  {
    if k > |t| then None
    else if IsLineTerminator(t[k - 1]) then None
    else if IsPrefix(d, t[k..]) then (assert t[..k] == t[..k - 1] + [t[k - 1]]; Some(k))
    else
      assert t[..k] == t[..k - 1] + [t[k - 1]];
      match CloseAfter(t, d, k + 1)
      case None => None
      case Some(m) => (assert t[..k] == t[..m][..k]; Some(m))
  }

  /** `s.replace(/DD(.+?)DD/g, '$1')` for a two-character delimiter `DD`
      (`\*\*` for bold, `__` for the underscore form). */
  function Unwrap(s: string, d: string): (r: string)
    requires |d| == 2
    ensures |r| <= |s|
    ensures d[0] !in s ==> r == s
    decreases |s|
  {
    if |s| == 0 then ""
    else if IsPrefix(d, s) then
      assert s[..2][0] == s[0];
      match CloseAfter(s[2..], d, 1)
      case Some(k) => s[2..2 + k] + Unwrap(s[2 + k + 2..], d)
      case None => [s[0]] + Unwrap(s[1..], d)
    else [s[0]] + Unwrap(s[1..], d)
  }

  /** `s.replace(/\[(.+?)\]\(.+?\)/g, '$1')`. When the shortest caption followed by
      `](` has no URL closed by `)` before a line break, no longer caption can have
      one either, so trying only the shortest caption is exact. */
  function Unlink(s: string): (r: string)
    ensures |r| <= |s|
    ensures '[' !in s ==> r == s
    decreases |s|
  {
    if |s| == 0 then ""
    else if s[0] == '[' then
      match CloseAfter(s[1..], "](", 1)
      case Some(k) =>
        (match CloseAfter(s[1 + k + 2..], ")", 1)
         case Some(m) => s[1..1 + k] + Unlink(s[1 + k + 2 + m + 1..])
         case None => [s[0]] + Unlink(s[1..]))
      case None => [s[0]] + Unlink(s[1..])
    else [s[0]] + Unlink(s[1..])
  }

  lemma {:induction false} CloseAfterFinds(t: string, d: string, k: nat, n: nat)
    requires 1 <= k <= n && |d| > 0
    requires n + |d| <= |t| && t[n..n + |d|] == d && NoLineTerminator(t[..n])
    requires forall j :: k <= j < n ==> !IsPrefix(d, t[j..])
    ensures CloseAfter(t, d, k) == Some(n)
    decreases n - k
  {
    assert !IsLineTerminator(t[..n][k - 1]);
    if k < n {
      CloseAfterFinds(t, d, k + 1, n);
    } else {
      assert t[k..][..|d|] == d;
    }
  }

  /** `**x**` and `__x__` lose their delimiters when the content is a non-empty
      single-line text without the delimiter character. */
  lemma UnwrapDelimited(x: string, d: string)
    requires |d| == 2 && d[0] == d[1]
    requires |x| >= 1 && NoLineTerminator(x) && d[0] !in x
    ensures Unwrap(d + x + d, d) == x
  {
    var s := d + x + d;
    assert IsPrefix(d, s);
    var t := s[2..];
    assert t == x + d;
    assert t[..|x|] == x;
    forall j | 1 <= j < |x| ensures !IsPrefix(d, t[j..]) {
      assert t[j..][0] == t[j] == x[j];
    }
    CloseAfterFinds(t, d, 1, |x|);
    assert s[2..2 + |x|] == x;
    assert s[2 + |x| + 2..] == "";
  }

  lemma BoldUnwraps(x: string)
    requires |x| >= 1 && NoLineTerminator(x) && '*' !in x
    ensures Unwrap("**" + x + "**", "**") == x
  {
    UnwrapDelimited(x, "**");
  }

  lemma UnderscoreUnwraps(x: string)
    requires |x| >= 1 && NoLineTerminator(x) && '_' !in x
    ensures Unwrap("__" + x + "__", "__") == x
  {
    UnwrapDelimited(x, "__");
  }

  /** `[caption](url)` becomes `caption` for a single-line caption without `]` and a
      single-line URL without `)`. */
  lemma LinkUnwraps(caption: string, url: string)
    requires |caption| >= 1 && NoLineTerminator(caption) && ']' !in caption
    requires |url| >= 1 && NoLineTerminator(url) && ')' !in url
    ensures Unlink("[" + caption + "](" + url + ")") == caption
  {
    var s := "[" + caption + "](" + url + ")";
    var k := |caption|;
    assert s[1..] == caption + "](" + (url + ")");
    CaptionCloses(caption, "](", url + ")");
    assert s[1 + k + 2..] == url + ")" + "";
    CaptionCloses(url, ")", "");
    assert s[1..1 + k] == caption;
    assert s[1 + k + 2 + |url| + 1..] == "";
  }

  /** The lazy capture over `x` closes right before `d` when `x` holds
      neither a line break nor the first character of `d`. */
  lemma CaptionCloses(x: string, d: string, more: string)
    requires |x| >= 1 && NoLineTerminator(x) && |d| > 0 && d[0] !in x
    ensures CloseAfter(x + d + more, d, 1) == Some(|x|)
  {
    var t := x + d + more;
    assert t[..|x|] == x;
    assert t[|x|..|x| + |d|] == d;
    forall j | 1 <= j < |x| ensures !IsPrefix(d, t[j..]) {
      assert t[j..][0] == t[j] == x[j];
    }
    CloseAfterFinds(t, d, 1, |x|);
  }

  /** Unwrapping drops delimiter characters only: every other character
      stays, in order. */
  lemma {:induction false} UnwrapDropsOnlyDelimiters(s: string, d: string)
    requires |d| == 2 && d[0] == d[1]
    ensures Omit(Unwrap(s, d), d[0]) == Omit(s, d[0])
    decreases |s|
  {
    if |s| > 0 {
      if IsPrefix(d, s) && CloseAfter(s[2..], d, 1).Some? {
        var k := CloseAfter(s[2..], d, 1).value;
        UnwrapDropsOnlyDelimiters(s[2 + k + 2..], d);
        UnwrapSpan(s, d, k);
      } else {
        UnwrapDropsOnlyDelimiters(s[1..], d);
        UnwrapKeepsFirst(s, d);
      }
    }
  }

  /** The step of `UnwrapDropsOnlyDelimiters` over a delimited span of
      length `k` at the front. */
  lemma UnwrapSpan(s: string, d: string, k: nat)
    requires |d| == 2 && d[0] == d[1] && IsPrefix(d, s) && CloseAfter(s[2..], d, 1) == Some(k)
    requires Omit(Unwrap(s[2 + k + 2..], d), d[0]) == Omit(s[2 + k + 2..], d[0])
    ensures Omit(Unwrap(s, d), d[0]) == Omit(s, d[0])
  {
    var content, rest := s[2..2 + k], s[2 + k + 2..];
    assert Unwrap(s, d) == content + Unwrap(rest, d);
    SpanParts(s, d, k);
    DelimitedOmit(d, content, rest, Unwrap(rest, d));
  }

  lemma SpanParts(s: string, d: string, k: nat)
    requires |d| == 2 && IsPrefix(d, s) && 2 + k + 2 <= |s| && s[2..][k..k + 2] == d
    ensures s == d + s[2..2 + k] + d + s[2 + k + 2..]
  {
    FourSlices(s, 2, 2 + k, 2 + k + 2);
    assert s[2 + k..2 + k + 2] == s[2..][k..k + 2];
  }

  lemma FourSlices(s: string, i: nat, j: nat, k: nat)
    requires i <= j <= k <= |s|
    ensures s == s[..i] + s[i..j] + s[j..k] + s[k..]
  {
    assert s[..k] == s[..i] + s[i..j] + s[j..k];
  }

  /** The step of `UnwrapDropsOnlyDelimiters` that keeps the first character. */
  lemma UnwrapKeepsFirst(s: string, d: string)
    requires |d| == 2 && |s| > 0 && !(IsPrefix(d, s) && CloseAfter(s[2..], d, 1).Some?)
    requires Omit(Unwrap(s[1..], d), d[0]) == Omit(s[1..], d[0])
    ensures Omit(Unwrap(s, d), d[0]) == Omit(s, d[0])
  {
    assert Unwrap(s, d) == [s[0]] + Unwrap(s[1..], d);
    OmitConcat([s[0]], Unwrap(s[1..], d), d[0]);
    OmitConcat([s[0]], s[1..], d[0]);
    assert s == [s[0]] + s[1..];
  }

  /** One delimited span: dropping the delimiter character from the span
      and from the rest, unwrapped or not, gives the same text. */
  lemma DelimitedOmit(d: string, content: string, rest: string, unwrapped: string)
    requires |d| == 2 && d[0] == d[1] && Omit(unwrapped, d[0]) == Omit(rest, d[0])
    ensures Omit(content + unwrapped, d[0]) == Omit(d + content + d + rest, d[0])
  {
    var c := d[0];
    var x := d + content;
    var y := x + d;
    var kept := Omit(content, c);
    OmitPair(d);
    OmitConcat(d, content, c);
    assert Omit(x, c) == kept;
    OmitConcat(x, d, c);
    assert Omit(y, c) == kept;
    OmitConcat(y, rest, c);
    assert Omit(y + rest, c) == kept + Omit(rest, c);
    OmitConcat(content, unwrapped, c);
  }

  lemma OmitPair(d: string)
    requires |d| == 2 && d[0] == d[1]
    ensures Omit(d, d[0]) == ""
  {
    assert d[1..][1..] == "";
  }

  // ---------------------------------------------------------------------------
  // Language rewrites
  // ---------------------------------------------------------------------------

  /** `s.replace(/\bW\b/g, rep)` for a word `W` of word characters, scanning the
      rest `t` of the text; `prevWord` says whether the character before `t` is a
      word character. */
  function ReplaceWord(t: string, w: string, rep: string, prevWord: bool): string
    requires |w| > 0 && AllWordChars(w)
    decreases |t|
  {
    if |t| == 0 then ""
    else if !prevWord && IsPrefix(w, t) && (|t| == |w| || !IsWordChar(t[|w|])) then
      rep + ReplaceWord(t[|w|..], w, rep, true)
    else [t[0]] + ReplaceWord(t[1..], w, rep, IsWordChar(t[0]))
  }

  function SpellWord(s: string, w: string, rep: string): string
    requires |w| > 0 && AllWordChars(w)
  {
    ReplaceWord(s, w, rep, false)
  }

  /** A whole-word occurrence followed by a non-word character is replaced and the
      scan goes on after it as at the start of a text. */
  lemma WordAtStart(w: string, rep: string, sepChar: char, rest: string)
    requires |w| > 0 && AllWordChars(w) && !IsWordChar(sepChar)
    ensures SpellWord(w + [sepChar] + rest, w, rep)
         == rep + [sepChar] + SpellWord(rest, w, rep)
  {
    var t := w + [sepChar] + rest;
    assert IsPrefix(w, t) && t[|w|] == sepChar;
    assert t[|w|..] == [sepChar] + rest;
    var u := ReplaceWord([sepChar] + rest, w, rep, true);
    assert u == [sepChar] + ReplaceWord(rest, w, rep, false) by {
      assert ([sepChar] + rest)[1..] == rest;
    }
  }

  /** The rewrite works word by word: a non-word character splits it in two. */
  lemma {:induction false} ReplaceWordSplits(a: string, sep: char, b: string, w: string, rep: string, prevWord: bool)
    requires |w| > 0 && AllWordChars(w) && !IsWordChar(sep)
    ensures ReplaceWord(a + [sep] + b, w, rep, prevWord)
         == ReplaceWord(a, w, rep, prevWord) + [sep] + ReplaceWord(b, w, rep, false)
    decreases |a|
  {
    if a == [] {
      var t := a + [sep] + b;
      assert t == [sep] + b && t[1..] == b;
      assert !IsPrefix(w, t) by { assert IsWordChar(w[0]); }
    } else if !prevWord && IsPrefix(w, a) && (|a| == |w| || !IsWordChar(a[|w|])) {
      ReplaceWordSplits(a[|w|..], sep, b, w, rep, true);
      SplitAtMatch(a, sep, b, w, rep);
    } else {
      ReplaceWordSplits(a[1..], sep, b, w, rep, IsWordChar(a[0]));
      SplitAtOther(a, sep, b, w, rep, prevWord);
    }
  }

  /** One step of `ReplaceWordSplits` where the abbreviation starts `a`. */
  lemma SplitAtMatch(a: string, sep: char, b: string, w: string, rep: string)
    requires |w| > 0 && AllWordChars(w) && !IsWordChar(sep) && |a| > 0
    requires IsPrefix(w, a) && (|a| == |w| || !IsWordChar(a[|w|]))
    requires ReplaceWord(a[|w|..] + [sep] + b, w, rep, true)
          == ReplaceWord(a[|w|..], w, rep, true) + [sep] + ReplaceWord(b, w, rep, false)
    ensures ReplaceWord(a + [sep] + b, w, rep, false)
         == ReplaceWord(a, w, rep, false) + [sep] + ReplaceWord(b, w, rep, false)
  {
    var t := a + [sep] + b;
    MatchInPrefix(a, sep, b, w);
    assert t[|w|..] == a[|w|..] + [sep] + b;
    ReplaceStep(t, a, w, rep, sep, ReplaceWord(b, w, rep, false));
  }

  /** One step of `ReplaceWordSplits` where the abbreviation does not start `a`. */
  lemma SplitAtOther(a: string, sep: char, b: string, w: string, rep: string, prevWord: bool)
    requires |w| > 0 && AllWordChars(w) && !IsWordChar(sep) && |a| > 0
    requires !(!prevWord && IsPrefix(w, a) && (|a| == |w| || !IsWordChar(a[|w|])))
    requires ReplaceWord(a[1..] + [sep] + b, w, rep, IsWordChar(a[0]))
          == ReplaceWord(a[1..], w, rep, IsWordChar(a[0])) + [sep] + ReplaceWord(b, w, rep, false)
    ensures ReplaceWord(a + [sep] + b, w, rep, prevWord)
         == ReplaceWord(a, w, rep, prevWord) + [sep] + ReplaceWord(b, w, rep, false)
  {
    var t := a + [sep] + b;
    MatchInPrefix(a, sep, b, w);
    assert t[0] == a[0] && t[1..] == a[1..] + [sep] + b;
    CopyStep(t, a, w, rep, prevWord, sep, ReplaceWord(b, w, rep, false));
  }

  /** A whole-word occurrence of `w` at the front of `t`. */
  predicate WordStarts(w: string, t: string) {
    IsPrefix(w, t) && (|t| == |w| || !IsWordChar(t[|w|]))
  }

  /** Two texts with the same first character and no occurrence of the
      abbreviation at their front rewrite alike up to what follows. */
  lemma CopyStep(t: string, a: string, w: string, rep: string, prevWord: bool, sep: char, y: string)
    requires |w| > 0 && AllWordChars(w) && |t| > 0 && |a| > 0 && t[0] == a[0]
    requires !(!prevWord && WordStarts(w, t)) && !(!prevWord && WordStarts(w, a))
    requires ReplaceWord(t[1..], w, rep, IsWordChar(t[0]))
          == ReplaceWord(a[1..], w, rep, IsWordChar(a[0])) + [sep] + y
    ensures ReplaceWord(t, w, rep, prevWord) == ReplaceWord(a, w, rep, prevWord) + [sep] + y
  {
    var x := ReplaceWord(a[1..], w, rep, IsWordChar(a[0]));
    assert [t[0]] + (x + [sep] + y) == ([a[0]] + x) + [sep] + y;
  }

  /** Two texts the abbreviation starts rewrite alike up to what follows. */
  lemma ReplaceStep(t: string, a: string, w: string, rep: string, sep: char, y: string)
    requires |w| > 0 && AllWordChars(w) && |t| > 0 && |a| > 0
    requires WordStarts(w, t) && WordStarts(w, a)
    requires ReplaceWord(t[|w|..], w, rep, true)
          == ReplaceWord(a[|w|..], w, rep, true) + [sep] + y
    ensures ReplaceWord(t, w, rep, false) == ReplaceWord(a, w, rep, false) + [sep] + y
  {
    var x := ReplaceWord(a[|w|..], w, rep, true);
    assert rep + (x + [sep] + y) == (rep + x) + [sep] + y;
  }

  /** A word of word characters matches at the front of `a + [sep] + b` exactly
      when it matches at the front of `a`, a non-word character ending both. */
  lemma MatchInPrefix(a: string, sep: char, b: string, w: string)
    requires |a| > 0 && |w| > 0 && AllWordChars(w) && !IsWordChar(sep)
    ensures WordStarts(w, a + [sep] + b) == WordStarts(w, a)
  {
    var t := a + [sep] + b;
    assert t[..|a|] == a && t[|a|] == sep;
    if IsPrefix(w, t) {
      if |w| > |a| {
        assert false;
      }
      assert w == t[..|w|] == a[..|w|];
      if |w| < |a| { assert t[|w|] == a[|w|]; }
    }
    if IsPrefix(w, a) {
      assert t[..|w|] == a[..|w|];
    }
  }

  /** Inside a run of word characters no word boundary follows the first one. */
  lemma {:induction false} ReplaceWithinWord(x: string, w: string, rep: string)
    requires |w| > 0 && AllWordChars(w) && AllWordChars(x)
    ensures ReplaceWord(x, w, rep, true) == x
    decreases |x|
  {
    if |x| > 0 {
      ReplaceWithinWord(x[1..], w, rep);
      assert x == [x[0]] + x[1..];
    }
  }

  /** A word other than the abbreviation is kept as it is. */
  lemma SpellKeepsOtherWord(x: string, w: string, rep: string)
    requires |w| > 0 && AllWordChars(w) && AllWordChars(x) && x != w
    ensures SpellWord(x, w, rep) == x
  {
    if |x| > 0 {
      if IsPrefix(w, x) {
        assert |x| != |w| by { assert x[..|w|] == w; }
        assert IsWordChar(x[|w|]);
      }
      ReplaceWithinWord(x[1..], w, rep);
      assert x == [x[0]] + x[1..];
    }
  }

  lemma WordAlone(w: string, rep: string)
    requires |w| > 0 && AllWordChars(w)
    ensures SpellWord(w, w, rep) == rep
  {
    assert w[..|w|] == w;
    assert w[|w|..] == "";
    assert ReplaceWord("", w, rep, true) == "";
    assert ReplaceWord(w, w, rep, false) == rep + ReplaceWord(w[|w|..], w, rep, true);
  }

  lemma {:induction false} ReplaceWordWithoutFirstLetter(t: string, w: string, rep: string, prevWord: bool)
    requires |w| > 0 && AllWordChars(w) && w[0] !in t
    ensures ReplaceWord(t, w, rep, prevWord) == t
    decreases |t|
  {
    if |t| > 0 {
      assert !IsPrefix(w, t) by { if |w| <= |t| { assert t[..|w|][0] == t[0]; } }
      ReplaceWordWithoutFirstLetter(t[1..], w, rep, IsWordChar(t[0]));
    }
  }

  /** Leading white space of `s`, dropped. */
  function DropSpaces(s: string): (r: string)
    ensures |r| <= |s| && (r == [] || !IsSpace(r[0]))
    ensures r == s[|s| - |r|..]
  {
    if |s| > 0 && IsSpace(s[0]) then DropSpaces(s[1..]) else s
  }

  /** Wherever `p` is followed by white space, that is one plain space
      followed by something other than white space, or the end. */
  predicate SpacedAfter(r: string, p: char) {
    forall i :: 0 <= i < |r| - 1 && r[i] == p && IsSpace(r[i + 1]) ==>
      r[i + 1] == ' ' && (i + 2 == |r| || !IsSpace(r[i + 2]))
  }

  /** `s.replace(/P\s+/g, 'P ')` for a punctuation mark `P`. */
  function SpaceAfter(s: string, p: char): (r: string)
    ensures |r| <= |s| && (|s| > 0 ==> |r| > 0 && r[0] == s[0])
    ensures SpacedAfter(r, p)
    decreases |s|
  {
    if |s| == 0 then ""
    else if s[0] == p && |s| > 1 && IsSpace(s[1]) then [p, ' '] + SpaceAfter(DropSpaces(s[1..]), p)
    else [s[0]] + SpaceAfter(s[1..], p)
  }

  /** The English rewrites: department codes spelled out letter by letter,
      `CE` as "Civil Engineering", single spaces after sentence marks. */
  function EnglishRewrite(s: string): (r: string)
    ensures SpacedAfter(r, '.') && SpacedAfter(r, '?') && SpacedAfter(r, '!')
  {
    var f := SpellWord(LetterSpelled(s), "CE", "Civil Engineering");
    var a := SpaceAfter(f, '.');
    var b := SpaceAfter(a, '?');
    SpaceAfterKeepsSpaced(a, '.', '?');
    SpaceAfterKeepsSpaced(b, '.', '!');
    SpaceAfterKeepsSpaced(b, '?', '!');
    SpaceAfter(b, '!')
  }

  /** Spacing after one mark `q` keeps the spacing already made after
      another mark `p`. */
  lemma {:induction false} SpaceAfterKeepsSpaced(s: string, p: char, q: char)
    requires p != q && !IsSpace(p) && !IsSpace(q) && SpacedAfter(s, p)
    ensures SpacedAfter(SpaceAfter(s, q), p)
    decreases |s|
  {
    if |s| > 0 {
      if s[0] == q && |s| > 1 && IsSpace(s[1]) {
        var t := DropSpaces(s[1..]);
        SpacedAfterSuffix(s, p, |s| - |t|);
        SpaceAfterKeepsSpaced(t, p, q);
        SpacedBehind([q, ' '], SpaceAfter(t, q), p);
      } else {
        SpacedAfterSuffix(s, p, 1);
        SpaceAfterKeepsSpaced(s[1..], p, q);
        KeptBeforeSpaced(s, p, q);
      }
    }
  }

  /** A head without `p` put in front of a text spaced after `p`. */
  lemma SpacedBehind(head: string, rest: string, p: char)
    requires p !in head && SpacedAfter(rest, p)
    ensures SpacedAfter(head + rest, p)
  {
    var r := head + rest;
    forall i | 0 <= i < |r| - 1 && r[i] == p && IsSpace(r[i + 1])
      ensures r[i + 1] == ' ' && (i + 2 == |r| || !IsSpace(r[i + 2]))
    {
      assert i >= |head|;
      assert r[i] == rest[i - |head|] && r[i + 1] == rest[i - |head| + 1];
      if i + 2 < |r| { assert r[i + 2] == rest[i - |head| + 2]; }
    }
  }

  /** The step of `SpaceAfterKeepsSpaced` that keeps the first character. */
  lemma KeptBeforeSpaced(s: string, p: char, q: char)
    requires p != q && !IsSpace(q) && |s| > 0 && SpacedAfter(s, p)
    requires !(s[0] == q && |s| > 1 && IsSpace(s[1]))
    requires SpacedAfter(SpaceAfter(s[1..], q), p)
    ensures SpacedAfter(SpaceAfter(s, q), p)
  {
    var rest := SpaceAfter(s[1..], q);
    var r := [s[0]] + rest;
    assert SpaceAfter(s, q) == r;
    forall i | 0 <= i < |r| - 1 && r[i] == p && IsSpace(r[i + 1])
      ensures r[i + 1] == ' ' && (i + 2 == |r| || !IsSpace(r[i + 2]))
    {
      if i == 0 {
        assert s[0] == p && rest[0] == s[1];
        assert s[1..][0] == ' ';
        assert rest == [' '] + SpaceAfter(s[2..], q) by { assert s[1..][1..] == s[2..]; }
        if |s| > 2 {
          assert rest[1] == s[2];
        }
      } else {
        assert r[i] == rest[i - 1] && r[i + 1] == rest[i];
        if i + 2 < |r| { assert r[i + 2] == rest[i + 1]; }
      }
    }
  }

  lemma SpacedAfterSuffix(s: string, p: char, n: nat)
    requires n <= |s| && SpacedAfter(s, p)
    ensures SpacedAfter(s[n..], p)
  {
    var t := s[n..];
    forall i | 0 <= i < |t| - 1 && t[i] == p && IsSpace(t[i + 1])
      ensures t[i + 1] == ' ' && (i + 2 == |t| || !IsSpace(t[i + 2]))
    {
      assert s[n + i] == p && s[n + i + 1] == t[i + 1];
      if i + 2 < |t| { assert s[n + i + 2] == t[i + 2]; }
    }
  }

  /** A replacement with the same wording as the word it replaces leaves the
      wording of the text alone. */
  lemma {:induction false} ReplaceWordKeepsWording(t: string, w: string, rep: string, prevWord: bool)
    requires |w| > 0 && AllWordChars(w) && Wording(rep) == Wording(w)
    ensures Wording(ReplaceWord(t, w, rep, prevWord)) == Wording(t)
    decreases |t|
  {
    if |t| > 0 {
      if !prevWord && IsPrefix(w, t) && (|t| == |w| || !IsWordChar(t[|w|])) {
        ReplaceWordKeepsWording(t[|w|..], w, rep, true);
        WordingConcat(rep, ReplaceWord(t[|w|..], w, rep, true));
        assert t == w + t[|w|..];
        WordingConcat(w, t[|w|..]);
      } else {
        ReplaceWordKeepsWording(t[1..], w, rep, IsWordChar(t[0]));
        var rest := ReplaceWord(t[1..], w, rep, IsWordChar(t[0]));
        assert ([t[0]] + rest)[0] == t[0] && ([t[0]] + rest)[1..] == rest;
      }
    }
  }

  lemma {:induction false} SpaceAfterKeepsWording(s: string, p: char)
    ensures Wording(SpaceAfter(s, p)) == Wording(s)
    decreases |s|
  {
    if |s| > 0 {
      if s[0] == p && |s| > 1 && IsSpace(s[1]) {
        var t := DropSpaces(s[1..]);
        SpaceAfterKeepsWording(t, p);
        DropSpacesKeepsWording(s[1..]);
        MarkSpaced(s, p, SpaceAfter(t, p));
      } else {
        SpaceAfterKeepsWording(s[1..], p);
        WordingCons(s[0], SpaceAfter(s[1..], p));
        WordingCons(s[0], s[1..]);
        assert s == [s[0]] + s[1..];
      }
    }
  }

  /** One space after the mark in place of the spaces that followed it. */
  lemma MarkSpaced(s: string, p: char, rest: string)
    requires |s| > 1 && s[0] == p && Wording(rest) == Wording(s[1..])
    ensures Wording([p, ' '] + rest) == Wording(s)
  {
    assert [p, ' '] + rest == [p] + ([' '] + rest);
    WordingCons(p, [' '] + rest);
    WordingCons(' ', rest);
    WordingCons(p, s[1..]);
    assert s == [p] + s[1..];
  }

  /** No 'C' directly followed by 'E' anywhere in the text. */
  predicate NoCe(s: string) {
    forall i :: 0 <= i < |s| - 1 ==> !(s[i] == 'C' && s[i + 1] == 'E')
  }

  lemma NoCeConcat(a: string, b: string)
    requires NoCe(a) && NoCe(b)
    requires |a| > 0 && |b| > 0 ==> !(a[|a| - 1] == 'C' && b[0] == 'E')
    ensures NoCe(a + b)
  {
    var ab := a + b;
    forall i | 0 <= i < |ab| - 1 ensures !(ab[i] == 'C' && ab[i + 1] == 'E') {
      if i < |a| - 1 {
        assert ab[i] == a[i] && ab[i + 1] == a[i + 1];
      } else if i >= |a| {
        assert ab[i] == b[i - |a|] && ab[i + 1] == b[i - |a| + 1];
      }
    }
  }

  /** Replacing other words by texts without a "CE" pair, none ending in 'C',
      does not create one; after a word character the first character stays. */
  lemma {:induction false} ReplaceWordKeepsNoCe(t: string, w: string, rep: string, prevWord: bool)
    requires |w| > 0 && AllWordChars(w) && |rep| > 0 && NoCe(rep) && rep[|rep| - 1] != 'C'
    requires NoCe(t)
    ensures NoCe(ReplaceWord(t, w, rep, prevWord))
    ensures prevWord && |t| > 0 ==>
              |ReplaceWord(t, w, rep, prevWord)| > 0 && ReplaceWord(t, w, rep, prevWord)[0] == t[0]
    decreases |t|
  {
    if |t| > 0 {
      if !prevWord && IsPrefix(w, t) && (|t| == |w| || !IsWordChar(t[|w|])) {
        var u := t[|w|..];
        assert NoCe(u) by {
          forall i | 0 <= i < |u| - 1 ensures !(u[i] == 'C' && u[i + 1] == 'E') {
            assert u[i] == t[|w| + i] && u[i + 1] == t[|w| + i + 1];
          }
        }
        ReplaceWordKeepsNoCe(u, w, rep, true);
        NoCeConcat(rep, ReplaceWord(u, w, rep, true));
      } else {
        var u := t[1..];
        assert NoCe(u) by {
          forall i | 0 <= i < |u| - 1 ensures !(u[i] == 'C' && u[i + 1] == 'E') {
            assert u[i] == t[i + 1] && u[i + 1] == t[i + 2];
          }
        }
        ReplaceWordKeepsNoCe(u, w, rep, IsWordChar(t[0]));
        var rest := ReplaceWord(u, w, rep, IsWordChar(t[0]));
        assert t[0] == 'C' && |u| > 0 ==> rest[0] == u[0] && u[0] == t[1];
        NoCeConcat([t[0]], rest);
        assert ([t[0]] + rest)[0] == t[0];
      }
    }
  }

  /** Without a "CE" pair there is no word `CE` to replace. */
  lemma {:induction false} ReplaceCeAbsent(t: string, rep: string, prevWord: bool)
    requires NoCe(t)
    ensures ReplaceWord(t, "CE", rep, prevWord) == t
    decreases |t|
  {
    if |t| > 0 {
      assert !IsPrefix("CE", t) by {
        if |t| >= 2 { assert t[..2][0] == t[0] && t[..2][1] == t[1]; }
      }
      var u := t[1..];
      assert NoCe(u) by {
        forall i | 0 <= i < |u| - 1 ensures !(u[i] == 'C' && u[i + 1] == 'E') {
          assert u[i] == t[i + 1] && u[i + 1] == t[i + 2];
        }
      }
      ReplaceCeAbsent(u, rep, IsWordChar(t[0]));
      assert t == [t[0]] + u;
    }
  }

  /** The English rewrites only space out letters and sentence marks: a text
      without a "CE" pair keeps its wording. */
  lemma EnglishRewriteKeepsWording(s: string)
    requires NoCe(s)
    ensures Wording(EnglishRewrite(s)) == Wording(s)
  {
    var e := LetterSpelled(s);
    ReplaceCeAbsent(e, "Civil Engineering", false);
    SpaceAfterKeepsWording(e, '.');
    SpaceAfterKeepsWording(SpaceAfter(e, '.'), '?');
    SpaceAfterKeepsWording(SpaceAfter(SpaceAfter(e, '.'), '?'), '!');
  }

  /** The first five English rewrites, each spelling a code letter by letter. */
  function LetterSpelled(s: string): (e: string)
    ensures Wording(e) == Wording(s)
    ensures NoCe(s) ==> NoCe(e)
  {
    var a := SpellWord(s, "CSE", "C S E");
    SpellThree(s, 'C', 'S', 'E');
    var b := SpellWord(a, "ECE", "E C E");
    SpellThree(a, 'E', 'C', 'E');
    var c := SpellWord(b, "IT", "I T");
    SpellTwo(b, 'I', 'T');
    var d := SpellWord(c, "EE", "E E");
    SpellTwo(c, 'E', 'E');
    SpellTwo(d, 'M', 'E');
    SpellWord(d, "ME", "M E")
  }

  /** One letter-by-letter spelling keeps the wording and creates no "CE" pair. */
  lemma SpellingKeepsWording(t: string, w: string, rep: string)
    requires |w| > 0 && AllWordChars(w) && |rep| > 0 && NoCe(rep) && rep[|rep| - 1] != 'C'
    requires Wording(rep) == Wording(w)
    ensures Wording(SpellWord(t, w, rep)) == Wording(t)
    ensures NoCe(t) ==> NoCe(SpellWord(t, w, rep))
  {
    ReplaceWordKeepsWording(t, w, rep, false);
    if NoCe(t) {
      ReplaceWordKeepsNoCe(t, w, rep, false);
    }
  }

  /** Spelling a three-letter code with spaces between its capitals. */
  lemma SpellThree(t: string, x: char, y: char, z: char)
    requires IsAsciiUpper(x) && IsAsciiUpper(y) && IsAsciiUpper(z) && z != 'C'
    ensures Wording(SpellWord(t, [x, y, z], [x, ' ', y, ' ', z])) == Wording(t)
    ensures NoCe(t) ==> NoCe(SpellWord(t, [x, y, z], [x, ' ', y, ' ', z]))
  {
    SpelledWording(x, y, z);
    SpellingKeepsWording(t, [x, y, z], [x, ' ', y, ' ', z]);
  }

  /** Spelling a two-letter code with a space between its capitals. */
  lemma SpellTwo(t: string, x: char, y: char)
    requires IsAsciiUpper(x) && IsAsciiUpper(y) && y != 'C'
    ensures Wording(SpellWord(t, [x, y], [x, ' ', y])) == Wording(t)
    ensures NoCe(t) ==> NoCe(SpellWord(t, [x, y], [x, ' ', y]))
  {
    SpelledPair(x, y);
    SpellingKeepsWording(t, [x, y], [x, ' ', y]);
  }

  /** A two-letter code spelled with a space between its letters keeps its
      wording and has no "CE" pair. */
  lemma SpelledPair(x: char, y: char)
    requires !IsPauseChar(x) && !IsPauseChar(y)
    ensures Wording([x, ' ', y]) == [x, y] && Wording([x, y]) == [x, y]
    ensures NoCe([x, ' ', y])
  {
    assert [y] == [y] + [];
    WordingCons(y, []);
    assert [' ', y] == [' '] + [y];
    WordingCons(' ', [y]);
    assert [x, ' ', y] == [x] + [' ', y];
    WordingCons(x, [' ', y]);
    assert [x, y] == [x] + [y];
    WordingCons(x, [y]);
  }

  /** The same for a three-letter code. */
  lemma SpelledWording(x: char, y: char, z: char)
    requires !IsPauseChar(x) && !IsPauseChar(y) && !IsPauseChar(z)
    ensures Wording([x, ' ', y, ' ', z]) == [x, y, z] && Wording([x, y, z]) == [x, y, z]
    ensures NoCe([x, ' ', y, ' ', z])
  {
    SpelledPair(y, z);
    assert [' ', y, ' ', z] == [' '] + [y, ' ', z];
    WordingCons(' ', [y, ' ', z]);
    assert [x, ' ', y, ' ', z] == [x] + [' ', y, ' ', z];
    WordingCons(x, [' ', y, ' ', z]);
    assert [x, y, z] == [x] + [y, z];
    WordingCons(x, [y, z]);
  }

  /** Length of the digit run at the start of `s`. */
  function DigitRun(s: string): (n: nat)
    ensures n <= |s| && forall i :: 0 <= i < n ==> IsDigit(s[i])
    ensures n < |s| ==> !IsDigit(s[n])
  {
    if |s| > 0 && IsDigit(s[0]) then 1 + DigitRun(s[1..]) else 0
  }

  /** Every digit sits strictly inside the text, between digits or spaces. */
  predicate DigitsPadded(r: string) {
    forall i :: 0 <= i < |r| && IsDigit(r[i]) ==>
      0 < i < |r| - 1 && (IsDigit(r[i - 1]) || r[i - 1] == ' ') && (IsDigit(r[i + 1]) || r[i + 1] == ' ')
  }

  /** `s.replace(/(\d+)/g, ' $1 ')`, the Hindi rewrite. */
  function PadDigits(s: string): (r: string)
    ensures DigitsPadded(r)
    ensures Wording(r) == Wording(s)
    decreases |s|
  {
    if |s| == 0 then ""
    else if IsDigit(s[0]) then
      var n := DigitRun(s);
      var rest := PadDigits(s[n..]);
      PaddedRun(s, n, rest);
      " " + s[..n] + " " + rest
    else
      var rest := PadDigits(s[1..]);
      PaddedKeep(s, rest);
      [s[0]] + rest
  }

  /** A digit run at the front, padded on both sides, before a padded rest. */
  lemma PaddedRun(s: string, n: nat, rest: string)
    requires 0 < n <= |s| && forall i :: 0 <= i < n ==> IsDigit(s[i])
    requires DigitsPadded(rest) && Wording(rest) == Wording(s[n..])
    ensures DigitsPadded(" " + s[..n] + " " + rest)
    ensures Wording(" " + s[..n] + " " + rest) == Wording(s)
  {
    var r := " " + s[..n] + " " + rest;
    assert forall i :: n + 2 <= i < |r| ==> r[i] == rest[i - n - 2];
    assert forall i :: 1 <= i <= n ==> r[i] == s[i - 1];
    PaddedRunKeepsWording(s, n, rest);
  }

  /** A character other than a digit kept in front of a padded rest. */
  lemma PaddedKeep(s: string, rest: string)
    requires |s| > 0 && !IsDigit(s[0])
    requires DigitsPadded(rest) && Wording(rest) == Wording(s[1..])
    ensures DigitsPadded([s[0]] + rest)
    ensures Wording([s[0]] + rest) == Wording(s)
  {
    var r := [s[0]] + rest;
    assert forall i :: 1 <= i < |r| ==> r[i] == rest[i - 1];
    KeptFront(s, rest);
  }

  /** Spaces put around the first `n` characters leave the wording alone. */
  lemma PaddedRunKeepsWording(s: string, n: nat, rest: string)
    requires n <= |s| && Wording(rest) == Wording(s[n..])
    ensures Wording(" " + s[..n] + " " + rest) == Wording(s)
  {
    WordingConcat(" " + s[..n], " " + rest);
    WordingConcat(" ", s[..n]);
    WordingConcat(" ", rest);
    WordingOfPauses(" ");
    assert " " + s[..n] + " " + rest == (" " + s[..n]) + (" " + rest);
    assert s == s[..n] + s[n..];
    WordingConcat(s[..n], s[n..]);
  }

  lemma {:induction false} PadDigitsWithoutDigits(s: string)
    requires forall i :: 0 <= i < |s| ==> !IsDigit(s[i])
    ensures PadDigits(s) == s
    decreases |s|
  {
    if |s| > 0 {
      PadDigitsWithoutDigits(s[1..]);
    }
  }

  /** The language-specific step of the pipeline. */
  function LanguageRewrite(s: string, lang: string): (r: string)
    ensures lang == "en" ==> SpacedAfter(r, '.') && SpacedAfter(r, '?') && SpacedAfter(r, '!')
    ensures lang == "en" && NoCe(s) ==> Wording(r) == Wording(s)
    ensures lang == "hi" ==> DigitsPadded(r) && Wording(r) == Wording(s)
    ensures lang != "en" && lang != "hi" ==> r == s
  {
    if lang == "en" then
      if NoCe(s) then EnglishRewriteKeepsWording(s); EnglishRewrite(s)
      else EnglishRewrite(s)
    else if lang == "hi" then PadDigits(s)
    else s
  }

  /** Hindi text has no code rewrite: text without digits passes unchanged. */
  lemma HindiKeepsDigitFreeText(s: string)
    requires forall i :: 0 <= i < |s| ==> !IsDigit(s[i])
    ensures LanguageRewrite(s, "hi") == s
  {
    PadDigitsWithoutDigits(s);
  }

  lemma HindiPadsDigits(s: string)
    ensures DigitsPadded(LanguageRewrite(s, "hi"))
    ensures Wording(LanguageRewrite(s, "hi")) == Wording(s)
  {
  }

  lemma EnglishSpellsCse()
    ensures SpellWord("CSE", "CSE", "C S E") == "C S E"
    ensures SpellWord("CE", "CE", "Civil Engineering") == "Civil Engineering"
  {
    WordAlone("CSE", "C S E");
    WordAlone("CE", "Civil Engineering");
  }

  // ---------------------------------------------------------------------------
  // Final clean-up stages
  // ---------------------------------------------------------------------------

  /** Bullets and arrows removed by the pipeline. */
  predicate IsSymbol(c: char) {
    c == '•' || c == '→' || c == '←' || c == '↑' || c == '↓'
  }

  predicate NoSymbols(s: string) { forall i :: 0 <= i < |s| ==> !IsSymbol(s[i]) }

  predicate NoNewlines(s: string) { forall i :: 0 <= i < |s| ==> s[i] != '\n' }

  /** No two white-space characters in a row. */
  predicate NoSpaceRun(s: string) {
    forall i :: 0 <= i < |s| - 1 ==> !(IsSpace(s[i]) && IsSpace(s[i + 1]))
  }

  /** `s.replace(/[•→←↑↓]/g, '')` */
  function StripSymbols(s: string): (r: string)
    ensures NoSymbols(r)
    ensures forall i :: 0 <= i < |r| ==> r[i] in s
    ensures Wording(r) == Wording(s)
    ensures NoSymbols(s) ==> r == s
    decreases |s|
  {
    if |s| == 0 then ""
    else if IsSymbol(s[0]) then StripSymbols(s[1..])
    else
      var rest := StripSymbols(s[1..]);
      assert ([s[0]] + rest)[0] == s[0] && ([s[0]] + rest)[1..] == rest;
      assert NoSymbols(s) ==> NoSymbols(s[1..]) && s == [s[0]] + s[1..];
      [s[0]] + rest
  }

  function DropNewlines(s: string): (r: string)
    ensures |r| <= |s| && (r == [] || r[0] != '\n')
  {
    if |s| > 0 && s[0] == '\n' then DropNewlines(s[1..]) else s
  }

  /** `s.replace(/\n+/g, '. ')` */
  function NewlinesToPauses(s: string): (r: string)
    ensures NoNewlines(r)
    ensures forall i :: 0 <= i < |r| ==> r[i] in s || r[i] == '.' || r[i] == ' '
    ensures Wording(r) == Wording(s)
    ensures NoNewlines(s) ==> r == s
    decreases |s|
  {
    if |s| == 0 then ""
    else if s[0] == '\n' then
      var t := DropNewlines(s);
      assert t == [] || t[0] in s by {
        assert t == s[|s| - |t|..] by { DropNewlinesSuffix(s); }
      }
      var rest := NewlinesToPauses(t);
      assert forall i :: 0 <= i < |rest| ==> rest[i] in t || rest[i] == '.' || rest[i] == ' ';
      assert forall c :: c in t ==> c in s by { DropNewlinesSuffix(s); }
      DropNewlinesSuffix(s);
      PauseFront(rest);
      assert (". " + rest)[2..] == rest;
      ". " + rest
    else
      var rest := NewlinesToPauses(s[1..]);
      KeptFront(s, rest);
      assert ([s[0]] + rest)[0] == s[0] && ([s[0]] + rest)[1..] == rest;
      assert NoNewlines(s) ==> NoNewlines(s[1..]) && s == [s[0]] + s[1..];
      [s[0]] + rest
  }

  lemma {:induction false} DropNewlinesSuffix(s: string)
    ensures DropNewlines(s) == s[|s| - |DropNewlines(s)|..]
    ensures forall c :: c in DropNewlines(s) ==> c in s
    ensures Wording(DropNewlines(s)) == Wording(s)
    decreases |s|
  {
    if |s| > 0 && s[0] == '\n' {
      DropNewlinesSuffix(s[1..]);
      assert s[1..][|s| - 1 - |DropNewlines(s)|..] == s[|s| - |DropNewlines(s)|..];
    }
  }

  /** `s.replace(/\s{2,}/g, ' ')`: every white-space run of length two or more
      becomes one space; a single white-space character stays. */
  function CollapseSpaces(s: string): (r: string)
    ensures NoSpaceRun(r)
    ensures |s| > 0 ==> |r| > 0 && (IsSpace(r[0]) <==> IsSpace(s[0]))
    ensures forall i :: 0 <= i < |r| ==> r[i] in s || r[i] == ' '
    ensures Wording(r) == Wording(s)
    ensures NoSpaceRun(s) ==> r == s
    decreases |s|
  {
    if |s| == 0 then ""
    else if IsSpace(s[0]) && |s| >= 2 && IsSpace(s[1]) then
      var rest := CollapseSpaces(DropSpaces(s));
      CollapseRun(s, rest);
      " " + rest
    else
      var rest := CollapseSpaces(s[1..]);
      CollapseKeep(s, rest);
      [s[0]] + rest
  }

  /** The postconditions of `CollapseSpaces`, as one relation used by its steps. */
  ghost predicate CollapsedFrom(s: string, r: string) {
    NoSpaceRun(r)
    && (|s| > 0 ==> |r| > 0 && (IsSpace(r[0]) <==> IsSpace(s[0])))
    && (forall i :: 0 <= i < |r| ==> r[i] in s || r[i] == ' ')
    && Wording(r) == Wording(s)
    && (NoSpaceRun(s) ==> r == s)
  }

  /** A run of two or more white-space characters at the front becomes one space. */
  lemma CollapseRun(s: string, rest: string)
    requires |s| >= 2 && IsSpace(s[0]) && IsSpace(s[1])
    requires CollapsedFrom(DropSpaces(s), rest)
    ensures CollapsedFrom(s, " " + rest)
  {
    var t := DropSpaces(s);
    DropSpacesWithin(s);
    PrependNoRun(' ', rest);
    PauseFront(rest);
    assert !NoSpaceRun(s);
    var r := " " + rest;
    forall i | 0 <= i < |r| ensures r[i] in s || r[i] == ' ' {
      if i > 0 { assert r[i] == rest[i - 1]; }
    }
  }

  /** A character not starting a white-space run is kept. */
  lemma CollapseKeep(s: string, rest: string)
    requires |s| > 0 && !(IsSpace(s[0]) && |s| >= 2 && IsSpace(s[1]))
    requires CollapsedFrom(s[1..], rest)
    ensures CollapsedFrom(s, [s[0]] + rest)
  {
    PrependNoRun(s[0], rest);
    KeptFront(s, rest);
    var r := [s[0]] + rest;
    forall i | 0 <= i < |r| ensures r[i] in s || r[i] == ' ' {
      if i > 0 { assert r[i] == rest[i - 1]; assert rest[i - 1] in s[1..] || rest[i - 1] == ' '; }
    }
    assert NoSpaceRun(s) ==> NoSpaceRun(s[1..]) && s == [s[0]] + s[1..];
  }

  /** What is left after dropping leading white space comes from the text. */
  lemma DropSpacesWithin(s: string)
    ensures forall c :: c in DropSpaces(s) ==> c in s
    ensures Wording(DropSpaces(s)) == Wording(s)
  {
    DropSpacesKeepsWording(s);
    var t := DropSpaces(s);
    forall c | c in t ensures c in s {
      var k :| 0 <= k < |t| && t[k] == c;
      assert s[|s| - |t| + k] == c;
    }
  }

  lemma {:induction false} DropSpacesKeepsWording(s: string)
    ensures Wording(DropSpaces(s)) == Wording(s)
    decreases |s|
  {
    if |s| > 0 && IsSpace(s[0]) {
      DropSpacesKeepsWording(s[1..]);
    }
  }

  /** A character put in front of a text without white-space runs makes none,
      unless both it and the first character are white space. */
  lemma PrependNoRun(c: char, rest: string)
    requires NoSpaceRun(rest) && (IsSpace(c) && |rest| > 0 ==> !IsSpace(rest[0]))
    ensures NoSpaceRun([c] + rest)
    ensures forall i :: 1 <= i < |[c] + rest| ==> ([c] + rest)[i] == rest[i - 1]
  {
  }

  /** The last three rewrites before trimming: symbols dropped, line breaks
      turned into pauses, white-space runs collapsed. */
  function Tidy(s: string): (r: string)
    ensures NoSymbols(r) && NoNewlines(r) && NoSpaceRun(r)
    ensures Wording(r) == Wording(s)
    ensures NoSymbols(s) && NoNewlines(s) && NoSpaceRun(s) ==> r == s
  {
    var a := StripSymbols(s);
    var b := NewlinesToPauses(a);
    assert forall i :: 0 <= i < |b| ==> !IsSymbol(b[i]);
    CollapseSpaces(b)
  }

  /** `preprocessTextForVoice(text, lang)`: an unmarked text is spoken with its
      own wording, only its pauses change. */
  function Preprocess(text: string, lang: string): (r: string)
    ensures NoSymbols(r) && NoNewlines(r)
    ensures NoSpaceRun(r)
    ensures r == [] || (!IsSpace(r[0]) && !IsSpace(r[|r| - 1]))
    ensures Unmarked(text, lang) ==> Wording(r) == Wording(text)
  {
    var unwrapped := Unlink(Unwrap(Unwrap(text, "**"), "__"));
    var tidy := Tidy(LanguageRewrite(unwrapped, lang));
    TrimKeepsNoSpaceRun(tidy);
    TrimKeepsWording(tidy);
    UnmarkedKeepsWording(text, lang);
    Trim(tidy)
  }

  /** A text without markdown characters, and in English without a "CE" pair,
      meets the stages after the markdown ones unchanged. */
  predicate Unmarked(text: string, lang: string) {
    '*' !in text && '_' !in text && '[' !in text && (lang == "en" ==> NoCe(text))
  }

  lemma UnmarkedKeepsWording(text: string, lang: string)
    ensures Unmarked(text, lang) ==>
              Wording(Tidy(LanguageRewrite(Unlink(Unwrap(Unwrap(text, "**"), "__")), lang))) == Wording(text)
  {
    if Unmarked(text, lang) {
      if lang == "en" {
        EnglishRewriteKeepsWording(text);
      }
    }
  }

  lemma TrimKeepsNoSpaceRun(s: string)
    requires NoSymbols(s) && NoNewlines(s) && NoSpaceRun(s)
    ensures NoSymbols(Trim(s)) && NoNewlines(Trim(s)) && NoSpaceRun(Trim(s))
  {
    TrimChars(s);
    var a := TrimStart(s);
    var r := Trim(s);
    forall i | 0 <= i < |r| - 1 ensures !(IsSpace(r[i]) && IsSpace(r[i + 1])) {
      assert r[i] == a[i] && r[i + 1] == a[i + 1];
      assert a[i] == s[|s| - |a| + i] && a[i + 1] == s[|s| - |a| + i + 1];
    }
  }

  // ---------------------------------------------------------------------------
  // Language, cache key, file name
  // ---------------------------------------------------------------------------

  /** The property names every plain JavaScript object inherits from
      `Object.prototype`; looking one of them up in `{ en: 'en', hi: 'hi' }`
      finds a truthy inherited member. */
  const INHERITED_KEYS: set<string> := {
    "constructor", "hasOwnProperty", "isPrototypeOf", "propertyIsEnumerable",
    "toLocaleString", "toString", "valueOf", "__proto__",
    "__defineGetter__", "__defineSetter__", "__lookupGetter__", "__lookupSetter__"
  }

  /** `if (!supportedLangs[lang]) lang = 'en'`: a language the table answers for
      is kept, including the inherited names; any other falls back to 'en'. */
  function NormalizeLang(lang: string): (l: string)
    ensures l == "hi" <==> lang == "hi"
    ensures l == "en" <==> (lang != "hi" && lang !in INHERITED_KEYS)
    ensures l in INHERITED_KEYS <==> lang in INHERITED_KEYS
    ensures l in INHERITED_KEYS ==> l == lang
  {
    if lang == "en" || lang == "hi" || lang in INHERITED_KEYS then lang else "en"
  }

  /** `lang === 'hi' ? 'hi' : 'en'`, the language the speech is synthesised in. */
  function SpeechLang(l: string): (g: string)
    ensures g == "hi" || g == "en"
    ensures g == "hi" <==> l == "hi"
  {
    if l == "hi" then "hi" else "en"
  }

  /** Whatever language is asked for, the speech is Hindi exactly when 'hi' was
      asked for; an inherited name changes only the file name and skips the
      language rewrites. */
  lemma SpeechFollowsRequest(lang: string)
    ensures SpeechLang(NormalizeLang(lang)) == (if lang == "hi" then "hi" else "en")
    ensures lang in INHERITED_KEYS ==> LanguageRewrite("CSE", NormalizeLang(lang)) == "CSE"
  {
  }

  /** Maximum length of the text part of a cache key. */
  const KEY_LENGTH: nat := 80

  predicate IsKeyChar(c: char) { IsDigit(c) || IsAsciiLower(c) || c == '_' }

  /** `text.replace(/[^a-zA-Z0-9]/g, '_')` */
  function Underscored(text: string): (r: string)
    ensures |r| == |text|
    ensures forall i :: 0 <= i < |r| ==> (if IsAsciiAlnum(text[i]) then r[i] == text[i] else r[i] == '_')
  {
    if text == [] then []
    else [if IsAsciiAlnum(text[0]) then text[0] else '_'] + Underscored(text[1..])
  }

  /** `text.replace(/[^a-zA-Z0-9]/g, '_').substring(0, 80).toLowerCase()`:
      built from the raw text, not the preprocessed one. */
  function CacheKey(text: string): (key: string)
    ensures |key| == Min(|text|, KEY_LENGTH)
    ensures forall i :: 0 <= i < |key| ==> IsKeyChar(key[i])
    ensures forall i :: 0 <= i < |key| ==>
              key[i] == (if IsAsciiAlnum(text[i]) then LowerChar(text[i]) else '_')
    ensures forall i :: 0 <= i < |key| ==>
              (key[i] == '_' <==> (!IsAsciiAlnum(text[i]) || text[i] == '_'))
  {
    var u := Underscored(text);
    var cut := if |u| <= KEY_LENGTH then u else u[..KEY_LENGTH];
    ToLower(cut)
  }

  /** Texts that agree on their first 80 characters up to letter case and the
      choice of non-alphanumeric characters share a cache key. */
  lemma CacheKeyIgnoresCaseAndPunctuation(a: string, b: string)
    requires |a| == |b|
    requires forall i :: 0 <= i < |a| ==>
               (IsAsciiAlnum(a[i]) <==> IsAsciiAlnum(b[i]))
               && (IsAsciiAlnum(a[i]) ==> LowerChar(a[i]) == LowerChar(b[i]))
    ensures CacheKey(a) == CacheKey(b)
  {
  }

  /** A text that extends a shorter text has a key that extends the shorter key. */
  lemma CacheKeyOfExtension(a: string, b: string)
    ensures IsPrefix(CacheKey(a), CacheKey(a + b))
  {
    var ka := CacheKey(a);
    var kab := CacheKey(a + b);
    assert |ka| <= |kab|;
    forall i | 0 <= i < |ka| ensures kab[i] == ka[i] {
      assert (a + b)[i] == a[i];
    }
  }

  /** `voice_<lang>_<key>`, the prefix a cached file is recognised by. */
  function CachePrefix(lang: string, key: string): string
  {
    "voice_" + lang + "_" + key
  }

  /** `voice_<lang>_<key>_<timestamp>.mp3` */
  function FileName(lang: string, key: string, stamp: nat): (name: string)
    ensures IsPrefix(CachePrefix(lang, key), name)
    ensures IsSuffix(".mp3", name)
    ensures IsPrefix("voice_", name)
    ensures var p := CachePrefix(lang, key);
            |p| + 6 <= |name| && name[|p|] == '_'
            && (forall i :: |p| < i < |name| - 4 ==> IsDigit(name[i]))
            && ParseDigits(name[|p| + 1..|name| - 4]) == stamp
  {
    var p := CachePrefix(lang, key);
    var digits := NatToString(stamp);
    var name := p + "_" + digits + ".mp3";
    assert name[..|p|] == p;
    assert name[|p| + 1..|name| - 4] == digits;
    ParseNatToString(stamp);
    assert forall i :: |p| < i < |name| - 4 ==> name[i] == digits[i - |p| - 1];
    assert name[..6] == "voice_";
    assert name[|name| - 4..] == ".mp3";
    name
  }

  /** A file is a cache candidate when it starts with the prefix and ends with `.mp3`. */
  predicate MatchesPrefix(name: string, prefix: string)
  {
    IsPrefix(prefix, name) && IsSuffix(".mp3", name)
  }

  /** Because candidates are recognised by prefix, the file made for a longer text
      is also a candidate for a text whose key its key extends. */
  lemma LongerTextFileMatches(lang: string, a: string, b: string, stamp: nat)
    ensures MatchesPrefix(FileName(lang, CacheKey(a + b), stamp), CachePrefix(lang, CacheKey(a)))
  {
    CacheKeyOfExtension(a, b);
    var ka := CacheKey(a);
    var kab := CacheKey(a + b);
    var name := FileName(lang, kab, stamp);
    var pa := CachePrefix(lang, ka);
    var pab := CachePrefix(lang, kab);
    assert pab == "voice_" + lang + "_" + kab;
    assert pab[..|pa|] == pa by {
      assert kab[..|ka|] == ka;
    }
    assert name[..|pa|] == pab[..|pa|];
  }

  // ---------------------------------------------------------------------------
  // Failure classification
  // ---------------------------------------------------------------------------

  const NETWORK_MESSAGE := "Network error: Unable to reach Google TTS service. Please check your internet connection."
  const TIMEOUT_MESSAGE := "Google TTS service timeout. Please try again."
  const DENIED_MESSAGE := "Access denied by Google TTS. Your IP might be rate-limited. Try again later."
  const GENERIC_PREFIX := "Failed to generate voice: "

  /** The message a synthesis failure is rethrown with, checked in the order
      network, timeout, access denied, anything else. */
  function ClassifyTtsError(message: string): (r: string)
    ensures IsNetworkFailure(message) ==> r == NETWORK_MESSAGE
    ensures (!IsNetworkFailure(message) && Contains(message, "timeout")) ==> r == TIMEOUT_MESSAGE
    ensures (!IsNetworkFailure(message) && !Contains(message, "timeout") && IsAccessFailure(message))
              ==> r == DENIED_MESSAGE
    ensures (!IsNetworkFailure(message) && !Contains(message, "timeout") && !IsAccessFailure(message))
              ==> r == GENERIC_PREFIX + message
    ensures r == NETWORK_MESSAGE || r == TIMEOUT_MESSAGE || r == DENIED_MESSAGE || IsPrefix(GENERIC_PREFIX, r)
  {
    if IsNetworkFailure(message) then NETWORK_MESSAGE
    else if Contains(message, "timeout") then TIMEOUT_MESSAGE
    else if IsAccessFailure(message) then DENIED_MESSAGE
    else (var r := GENERIC_PREFIX + message; assert r[..|GENERIC_PREFIX|] == GENERIC_PREFIX; r)
  }

  predicate IsNetworkFailure(message: string) {
    Contains(message, "ENOTFOUND") || Contains(message, "network")
  }

  predicate IsAccessFailure(message: string) {
    Contains(message, "403") || Contains(message, "blocked")
  }

  const EMPTY_TEXT := "Text cannot be empty"
  const NOT_CREATED := "Voice file was not created"

  /** The failures raised inside the synthesis itself reach the caller as
      "Failed to generate voice: ..." since neither names a network, timeout or
      access problem. */
  lemma EmptyTextIsGeneric(m: string)
    requires m == EMPTY_TEXT
    ensures ClassifyTtsError(m) == GENERIC_PREFIX + m
  {
    assert forall k :: 0 <= k < |m| ==> m[k] != 'N' && m[k] != 'w' && m[k] != 'i' && m[k] != '4' && m[k] != 'l';
    GenericWithoutLetters(m, "ENOTFOUND", 1, "network", 3, "timeout", 1, "blocked", 1);
  }

  lemma NotCreatedIsGeneric(m: string)
    requires m == NOT_CREATED
    ensures ClassifyTtsError(m) == GENERIC_PREFIX + m
  {
    assert forall k :: 0 <= k < |m| ==> m[k] != 'E' && m[k] != 'k' && m[k] != 'm' && m[k] != '4' && m[k] != 'b';
    GenericWithoutLetters(m, "ENOTFOUND", 0, "network", 6, "timeout", 2, "blocked", 0);
  }

  /** A message missing one letter of each flag word is classified as generic. */
  lemma GenericWithoutLetters(m: string, a: string, i: nat, b: string, j: nat, c: string, k: nat, d: string, l: nat)
    requires a == "ENOTFOUND" && b == "network" && c == "timeout" && d == "blocked"
    requires i < |a| && j < |b| && k < |c| && l < |d|
    requires forall x :: 0 <= x < |m| ==> m[x] != a[i] && m[x] != b[j] && m[x] != c[k] && m[x] != '4' && m[x] != d[l]
    ensures ClassifyTtsError(m) == GENERIC_PREFIX + m
  {
    NotContainsByLetter(m, a, i);
    NotContainsByLetter(m, b, j);
    NotContainsByLetter(m, c, k);
    NotContainsByLetter(m, "403", 0);
    NotContainsByLetter(m, d, l);
  }

  lemma GenericWhenUnflagged(m: string)
    requires !Contains(m, "ENOTFOUND") && !Contains(m, "network") && !Contains(m, "timeout")
    requires !Contains(m, "403") && !Contains(m, "blocked")
    ensures ClassifyTtsError(m) == GENERIC_PREFIX + m
  {
  }

  /** A text that lacks some character of `t` cannot contain `t`. */
  lemma NotContainsByLetter(s: string, t: string, j: nat)
    requires j < |t| && t[j] !in s
    ensures !Contains(s, t)
  {
    forall i | 0 <= i <= |s| - |t| ensures !OccursAt(s, t, i) {
      assert s[i..i + |t|][j] == s[i + j];
    }
  }
}
