/** Shared vocabulary: optional and fallible values, the JavaScript character
    classes the services rely on, and the string operations they use
    (trim, ASCII case mapping, substring search, joining, decimal rendering,
    literal replace-all, alternation search). */
module Strings {

  datatype Option<T> = None | Some(value: T)

  datatype Result<T, E> = Ok(value: T) | Err(error: E)

  /** A request value JavaScript treats as true: present and not the empty text. */
  predicate Given(p: Option<string>) { p.Some? && p.value != "" }

  /** Markdown bold. */
  function Bold(x: string): string { "**" + x + "**" }

  /** `x || fallback` on a text field. */
  function OrElse(o: Option<string>, fallback: string): (r: string)
    ensures Given(o) ==> r == o.value
    ensures !Given(o) ==> r == fallback
  {
    if Given(o) then o.value else fallback
  }

  function Min(a: int, b: int): int { if a <= b then a else b }

  /** The first `n` elements, or all of them: a query's `.limit(n)`. */
  function Take<T>(s: seq<T>, n: nat): (r: seq<T>)
    ensures |r| == Min(n, |s|) && r == s[..|r|]
    ensures multiset(r) <= multiset(s)
  {
    var k := Min(n, |s|);
    assert s == s[..k] + s[k..];
    s[..k]
  }

  // ---------------------------------------------------------------------------
  // Character classes
  // ---------------------------------------------------------------------------

  /** JavaScript's `\s`: WhiteSpace and LineTerminator, the same set that
      `String.prototype.trim` strips. */
  predicate IsSpace(c: char) {
    c == ' ' || c == '\t' || c == '\n' || c == '\r' || c == '\U{000B}' || c == '\U{000C}'
    || c == '\U{00A0}' || c == '\U{1680}' || ('\U{2000}' <= c <= '\U{200A}')
    || c == '\U{2028}' || c == '\U{2029}' || c == '\U{202F}' || c == '\U{205F}'
    || c == '\U{3000}' || c == '\U{FEFF}'
  }

  /** The characters a regular-expression `.` does not match. */
  predicate IsLineTerminator(c: char) {
    c == '\n' || c == '\r' || c == '\U{2028}' || c == '\U{2029}'
  }

  predicate IsDigit(c: char) { '0' <= c <= '9' }
  predicate IsAsciiUpper(c: char) { 'A' <= c <= 'Z' }
  predicate IsAsciiLower(c: char) { 'a' <= c <= 'z' }
  predicate IsAsciiAlnum(c: char) { IsDigit(c) || IsAsciiUpper(c) || IsAsciiLower(c) }

  /** A regular-expression word character, `[A-Za-z0-9_]`. */
  predicate IsWordChar(c: char) { IsAsciiAlnum(c) || c == '_' }

  /** `^[A-Z0-9]+$` */
  predicate IsCodeText(s: string) {
    |s| > 0 && forall i :: 0 <= i < |s| ==> IsAsciiUpper(s[i]) || IsDigit(s[i])
  }

  predicate AllWordChars(s: string) { forall i :: 0 <= i < |s| ==> IsWordChar(s[i]) }

  predicate NoLineTerminator(s: string) { forall i :: 0 <= i < |s| ==> !IsLineTerminator(s[i]) }

  predicate HasSpace(s: string) { exists i :: 0 <= i < |s| && IsSpace(s[i]) }

  // ---------------------------------------------------------------------------
  // Prefixes, suffixes, substrings
  // ---------------------------------------------------------------------------

  predicate IsPrefix(p: string, s: string) { |p| <= |s| && s[..|p|] == p }

  predicate IsSuffix(p: string, s: string) { |p| <= |s| && s[|s| - |p|..] == p }

  predicate OccursAt(s: string, t: string, i: int) {
    0 <= i && i + |t| <= |s| && s[i..i + |t|] == t
  }

  /** `s.includes(t)` */
  predicate Contains(s: string, t: string) {
    exists i :: 0 <= i <= |s| - |t| && OccursAt(s, t, i)
  }

  predicate ContainsAny(s: string, ts: seq<string>) {
    exists k :: 0 <= k < |ts| && Contains(s, ts[k])
  }

  lemma ContainsAt(s: string, t: string, i: int)
    requires OccursAt(s, t, i)
    ensures Contains(s, t)
  {
  }

  lemma PrefixContained(a: string, b: string)
    ensures Contains(a + b, a)
  {
    assert OccursAt(a + b, a, 0);
  }

  lemma ContainsInRight(a: string, b: string, t: string)
    requires Contains(b, t)
    ensures Contains(a + b, t)
  {
    var i :| 0 <= i <= |b| - |t| && OccursAt(b, t, i);
    assert (a + b)[|a| + i..|a| + i + |t|] == b[i..i + |t|];
    assert OccursAt(a + b, t, |a| + i);
  }

  lemma ContainsInLeft(a: string, b: string, t: string)
    requires Contains(a, t)
    ensures Contains(a + b, t)
  {
    var i :| 0 <= i <= |a| - |t| && OccursAt(a, t, i);
    assert (a + b)[i..i + |t|] == a[i..i + |t|];
    assert OccursAt(a + b, t, i);
  }

  lemma SuffixContained(a: string, b: string)
    ensures Contains(a + b, b)
  {
    assert (a + b)[|a|..|a| + |b|] == b;
    assert OccursAt(a + b, b, |a|);
  }

  /** Every part of a joined list occurs in a text that ends with the list. */
  lemma JoinedAfter(head: string, parts: seq<string>, sep: string)
    ensures forall i :: 0 <= i < |parts| ==> Contains(head + Join(parts, sep), parts[i])
  {
    forall i | 0 <= i < |parts| ensures Contains(head + Join(parts, sep), parts[i]) {
      JoinContainsPart(parts, sep, i);
      ContainsInRight(head, Join(parts, sep), parts[i]);
    }
  }

  /** A text occurs in any text built around it. */
  lemma ContainsMiddle(a: string, t: string, b: string)
    ensures Contains(a + t + b, t)
  {
    assert (a + t + b)[|a|..|a| + |t|] == t;
    assert OccursAt(a + t + b, t, |a|);
  }

  /** No two consecutive copies of `c` (that is, `[c, c]` does not occur). */
  predicate NoDouble(s: string, c: char) {
    forall i :: 0 <= i < |s| - 1 ==> !(s[i] == c && s[i + 1] == c)
  }

  lemma NoDoubleNotContains(s: string, c: char)
    requires NoDouble(s, c)
    ensures !Contains(s, [c, c])
  {
    forall i | 0 <= i <= |s| - 2 ensures !OccursAt(s, [c, c], i) {
      assert !(s[i] == c && s[i + 1] == c);
      assert s[i..i + 2][0] == s[i] && s[i..i + 2][1] == s[i + 1];
    }
  }

  // ---------------------------------------------------------------------------
  // Trimming
  // ---------------------------------------------------------------------------

  function TrimStart(s: string): (r: string)
    ensures |r| <= |s| && r == s[|s| - |r|..]
    ensures forall i :: 0 <= i < |s| - |r| ==> IsSpace(s[i])
    ensures r == [] || !IsSpace(r[0])
  {
    if s == [] || !IsSpace(s[0]) then s else TrimStart(s[1..])
  }

  function TrimEnd(s: string): (r: string)
    ensures |r| <= |s| && r == s[..|r|]
    ensures forall i :: |r| <= i < |s| ==> IsSpace(s[i])
    ensures r == [] || !IsSpace(r[|r| - 1])
  {
    if s == [] || !IsSpace(s[|s| - 1]) then s else TrimEnd(s[..|s| - 1])
  }

  /** `s.trim()`: the longest infix of `s` with no white space at either end;
      everything cut off is white space. */
  function Trim(s: string): (r: string)
    ensures r == [] || (!IsSpace(r[0]) && !IsSpace(r[|r| - 1]))
    ensures |r| <= |TrimStart(s)| <= |s| && r == TrimStart(s)[..|r|]
    ensures r == [] <==> forall i :: 0 <= i < |s| ==> IsSpace(s[i])
  {
    var a := TrimStart(s);
    assert a != [] ==> !IsSpace(a[0]);
    TrimEnd(a)
  }

  /** Trimming only removes characters. */
  lemma TrimChars(s: string)
    ensures forall c :: c in Trim(s) ==> c in s
  {
    var a := TrimStart(s);
    var r := Trim(s);
    forall c | c in r ensures c in s {
      var k :| 0 <= k < |r| && r[k] == c;
      assert a[k] == c;
      assert s[|s| - |a| + k] == c;
    }
  }

  lemma TrimOfUnspaced(s: string)
    requires s == [] || (!IsSpace(s[0]) && !IsSpace(s[|s| - 1]))
    ensures Trim(s) == s
  {
  }

  lemma TrimIdempotent(s: string)
    ensures Trim(Trim(s)) == Trim(s)
  {
    TrimOfUnspaced(Trim(s));
  }

  lemma TrimOfSpaceFree(s: string)
    requires !HasSpace(s)
    ensures Trim(s) == s
  {
    if s != [] {
      assert !IsSpace(s[0]) && !IsSpace(s[|s| - 1]);
    }
  }

  // ---------------------------------------------------------------------------
  // ASCII case mapping
  // ---------------------------------------------------------------------------

  function LowerChar(c: char): (d: char)
    ensures !IsAsciiUpper(d)
    ensures IsAsciiAlnum(c) <==> IsAsciiAlnum(d)
  {
    if IsAsciiUpper(c) then (c as int + 32) as char else c
  }

  function UpperChar(c: char): (d: char)
    ensures !IsAsciiLower(d)
  {
    if IsAsciiLower(c) then (c as int - 32) as char else c
  }

  /** `s.toLowerCase()`, restricted to ASCII letters. */
  function ToLower(s: string): (r: string)
    ensures |r| == |s| && forall i :: 0 <= i < |s| ==> r[i] == LowerChar(s[i])
  {
    if s == [] then [] else [LowerChar(s[0])] + ToLower(s[1..])
  }

  /** `s.toUpperCase()`, restricted to ASCII letters. */
  function ToUpper(s: string): (r: string)
    ensures |r| == |s| && forall i :: 0 <= i < |s| ==> r[i] == UpperChar(s[i])
  {
    if s == [] then [] else [UpperChar(s[0])] + ToUpper(s[1..])
  }

  /** Case-insensitive equality, the `^x$` regular expression with flag `i`. */
  predicate EqualsIgnoreCase(a: string, b: string) { ToLower(a) == ToLower(b) }

  /** Case-insensitive substring test, the unanchored regular expression with flag `i`. */
  predicate ContainsIgnoreCase(s: string, t: string) { Contains(ToLower(s), ToLower(t)) }

  lemma ToLowerIdempotent(s: string)
    ensures ToLower(ToLower(s)) == ToLower(s)
  {
  }

  /** Text without capitals is its own lower-case form. */
  lemma ToLowerOfUncapitalised(s: string)
    requires forall i :: 0 <= i < |s| ==> !IsAsciiUpper(s[i])
    ensures ToLower(s) == s
  {
  }

  lemma ToLowerKeepsSpaces(s: string)
    ensures HasSpace(ToLower(s)) <==> HasSpace(s)
  {
    forall i | 0 <= i < |s| ensures IsSpace(ToLower(s)[i]) <==> IsSpace(s[i]) {
    }
  }

  /** Trimming lower-case text leaves it lower-case. */
  lemma TrimKeepsLower(s: string)
    requires ToLower(s) == s
    ensures ToLower(Trim(s)) == Trim(s)
  {
    var a := TrimStart(s);
    var r := Trim(s);
    var off := |s| - |a|;
    var lr := ToLower(r);
    forall i | 0 <= i < |r| ensures lr[i] == r[i] {
      var c := s[off + i];
      assert r[i] == a[i] == c;
      assert ToLower(s)[off + i] == LowerChar(c);
    }
  }

  // ---------------------------------------------------------------------------
  // Joining and decimal rendering
  // ---------------------------------------------------------------------------

  /** `parts.join(sep)` */
  function Join(parts: seq<string>, sep: string): string
  {
    if |parts| == 0 then ""
    else if |parts| == 1 then parts[0]
    else parts[0] + sep + Join(parts[1..], sep)
  }

  lemma {:induction false} JoinContainsPart(parts: seq<string>, sep: string, i: int)
    requires 0 <= i < |parts|
    ensures Contains(Join(parts, sep), parts[i])
  {
    if |parts| == 1 {
      assert OccursAt(parts[0], parts[0], 0);
    } else if i == 0 {
      PrefixContained(parts[0], sep + Join(parts[1..], sep));
      assert parts[0] + sep + Join(parts[1..], sep) == parts[0] + (sep + Join(parts[1..], sep));
    } else {
      JoinContainsPart(parts[1..], sep, i - 1);
      ContainsInRight(parts[0] + sep, Join(parts[1..], sep), parts[i]);
    }
  }

  function DigitChar(d: nat): (c: char)
    requires d < 10
    ensures IsDigit(c) && c as int - '0' as int == d
  {
    (d + '0' as int) as char
  }

  /** The decimal rendering of a natural number, as `${n}` prints it. */
  function NatToString(n: nat): (r: string)
    ensures |r| >= 1
    ensures forall i :: 0 <= i < |r| ==> IsDigit(r[i])
  {
    if n < 10 then [DigitChar(n)] else NatToString(n / 10) + [DigitChar(n % 10)]
  }

  function IntToString(n: int): string
  {
    if n < 0 then "-" + NatToString(-n) else NatToString(n)
  }

  function ParseDigits(s: string): nat
    requires forall i :: 0 <= i < |s| ==> IsDigit(s[i])
  {
    if s == [] then 0
    else
      var last := s[|s| - 1];
      assert IsDigit(last);
      ParseDigits(s[..|s| - 1]) * 10 + (last as int - '0' as int)
  }

  lemma {:induction false} ParseNatToString(n: nat)
    ensures ParseDigits(NatToString(n)) == n
  {
    var r := NatToString(n);
    if n >= 10 {
      ParseNatToString(n / 10);
      assert r[..|r| - 1] == NatToString(n / 10);
    }
  }

  lemma NatToStringInjective(m: nat, n: nat)
    requires NatToString(m) == NatToString(n)
    ensures m == n
  {
    ParseNatToString(m);
    ParseNatToString(n);
  }

  // ---------------------------------------------------------------------------
  // Literal replace-all and alternation search
  // ---------------------------------------------------------------------------

  /** `s.replace(/pat/g, rep)` for a literal, non-empty pattern. */
  function ReplaceAll(s: string, pat: string, rep: string): string
    requires |pat| > 0
    decreases |s|
  {
    if |s| < |pat| then s
    else if s[..|pat|] == pat then rep + ReplaceAll(s[|pat|..], pat, rep)
    else [s[0]] + ReplaceAll(s[1..], pat, rep)
  }

  /** Removing every `cc` left to right leaves no `cc` behind, and a string that
      does not start with `c` keeps its first character. */
  lemma {:induction false} RemoveDoubleLeavesNone(s: string, c: char)
    ensures NoDouble(ReplaceAll(s, [c, c], ""), c)
    ensures |s| > 0 && s[0] != c ==> |ReplaceAll(s, [c, c], "")| > 0 && ReplaceAll(s, [c, c], "")[0] == s[0]
    decreases |s|
  {
    var r := ReplaceAll(s, [c, c], "");
    if |s| < 2 {
    } else if s[..2] == [c, c] {
      RemoveDoubleLeavesNone(s[2..], c);
    } else {
      RemoveDoubleLeavesNone(s[1..], c);
      var t := ReplaceAll(s[1..], [c, c], "");
      assert r == [s[0]] + t;
      if s[0] == c {
        assert s[1] != c;
      }
    }
  }

  lemma {:induction false} ReplaceAllAbsent(s: string, pat: string, rep: string)
    requires |pat| > 0 && pat[0] !in s
    ensures ReplaceAll(s, pat, rep) == s
    decreases |s|
  {
    if |s| >= |pat| {
      assert s[..|pat|][0] == s[0];
      ReplaceAllAbsent(s[1..], pat, rep);
    }
  }

  /** A text without an occurrence of the pattern is left as it is. */
  lemma {:induction false} ReplaceAllUnmatched(s: string, pat: string, rep: string)
    requires |pat| > 0
    ensures !Contains(s, pat) ==> ReplaceAll(s, pat, rep) == s
    decreases |s|
  {
    if |s| >= |pat| && !Contains(s, pat) {
      if s[..|pat|] == pat {
        assert OccursAt(s, pat, 0);
        assert false;
      }
      forall i | 0 <= i <= |s[1..]| - |pat| ensures !OccursAt(s[1..], pat, i) {
        if OccursAt(s[1..], pat, i) {
          assert s[i + 1..i + 1 + |pat|] == s[1..][i..i + |pat|];
          assert OccursAt(s, pat, i + 1);
        }
      }
      ReplaceAllUnmatched(s[1..], pat, rep);
    }
  }

  /** The characters of `s` other than `c`, in order. */
  function Omit(s: string, c: char): (r: string)
    ensures |r| <= |s| && c !in r
  {
    if |s| == 0 then "" else (if s[0] == c then "" else [s[0]]) + Omit(s[1..], c)
  }

  lemma {:induction false} OmitConcat(a: string, b: string, c: char)
    ensures Omit(a + b, c) == Omit(a, c) + Omit(b, c)
    decreases |a|
  {
    if |a| > 0 {
      assert (a + b)[0] == a[0] && (a + b)[1..] == a[1..] + b;
      OmitConcat(a[1..], b, c);
    } else {
      assert a + b == b;
    }
  }

  lemma {:induction false} OmitAbsent(s: string, c: char)
    requires c !in s
    ensures Omit(s, c) == s
    decreases |s|
  {
    if |s| > 0 {
      assert s == [s[0]] + s[1..];
      OmitAbsent(s[1..], c);
    }
  }

  /** Dropping the marks of `a` + `cc x cc` + `b` leaves `a + x + b`. */
  lemma OmitMarked(a: string, x: string, b: string, c: char)
    requires c !in a && c !in x && c !in b
    ensures Omit(a + ([c, c] + x + [c, c]) + b, c) == a + x + b
  {
    var m := [c, c];
    assert a + (m + x + m) + b == a + m + x + m + b;
    assert Omit(m, c) == "" by { assert m[1..] == [c]; assert [c][1..] == ""; }
    OmitAbsent(a, c);
    OmitAbsent(x, c);
    OmitAbsent(b, c);
    var s1 := a + m;
    OmitConcat(a, m, c);
    assert Omit(s1, c) == a;
    var s2 := s1 + x;
    OmitConcat(s1, x, c);
    assert Omit(s2, c) == a + x;
    var s3 := s2 + m;
    OmitConcat(s2, m, c);
    assert Omit(s3, c) == a + x;
    OmitConcat(s3, b, c);
  }

  /** Removing every `cc` keeps every other character, in order. */
  lemma {:induction false} RemoveDoubleKeepsOthers(s: string, c: char)
    ensures Omit(ReplaceAll(s, [c, c], ""), c) == Omit(s, c)
    decreases |s|
  {
    var pat := [c, c];
    if |s| < 2 {
    } else if s[..2] == pat {
      assert s[0] == c && s[1] == c && s[1..][1..] == s[2..];
      RemoveDoubleKeepsOthers(s[2..], c);
      assert ReplaceAll(s, pat, "") == ReplaceAll(s[2..], pat, "");
    } else {
      var rest := ReplaceAll(s[1..], pat, "");
      RemoveDoubleKeepsOthers(s[1..], c);
      assert ReplaceAll(s, pat, "") == [s[0]] + rest;
      assert ([s[0]] + rest)[1..] == rest;
    }
  }

  /** The first alternative in `alts` that occurs in `s` at position `i`. */
  function AltAt(s: string, i: nat, alts: seq<string>): (r: Option<string>)
    ensures r.Some? ==> r.value in alts && OccursAt(s, r.value, i)
  {
    if |alts| == 0 then None
    else if OccursAt(s, alts[0], i) then Some(alts[0])
    else AltAt(s, i, alts[1..])
  }

  /** What an unanchored `(a|b|...)` matches first: the leftmost position where some
      alternative occurs, and there the first alternative in list order. */
  function FirstAltFrom(s: string, i: nat, alts: seq<string>): (r: Option<string>)
    ensures r.Some? ==> r.value in alts && Contains(s, r.value)
    decreases |s| - i
  {
    if i > |s| then None
    else match AltAt(s, i, alts)
      case Some(a) => (ContainsAt(s, a, i); Some(a))
      case None => FirstAltFrom(s, i + 1, alts)
  }

  /** `t` occurs at `i` as a whole word: `\b` holds on both sides, for a `t`
      that begins and ends with a word character. */
  predicate WordAt(s: string, t: string, i: int) {
    OccursAt(s, t, i)
    && (i == 0 || !IsWordChar(s[i - 1]))
    && (i + |t| == |s| || !IsWordChar(s[i + |t|]))
  }

  /** The first alternative in `alts` that occurs at `i` as a whole word. */
  function WordAltAt(s: string, i: nat, alts: seq<string>): (r: Option<string>)
    ensures r.Some? ==> r.value in alts && WordAt(s, r.value, i)
    ensures r.None? <==> forall j :: 0 <= j < |alts| ==> !WordAt(s, alts[j], i)
  {
    if |alts| == 0 then None
    else if WordAt(s, alts[0], i) then Some(alts[0])
    else
      var r := WordAltAt(s, i, alts[1..]);
      assert forall j :: 1 <= j < |alts| ==> alts[j] == alts[1..][j - 1];
      r
  }

  /** What `/\b(a|b|...)\b/` matches first: the leftmost position where some
      alternative occurs as a whole word, and there the first such alternative
      in list order. */
  function FirstWordAltFrom(s: string, i: nat, alts: seq<string>): (r: Option<string>)
    ensures r.Some? ==> r.value in alts && exists k :: i <= k <= |s| && WordAt(s, r.value, k)
    ensures r.None? <==> forall k, j :: i <= k <= |s| && 0 <= j < |alts| ==> !WordAt(s, alts[j], k)
    decreases |s| - i
  {
    if i > |s| then None
    else match WordAltAt(s, i, alts)
      case Some(a) => Some(a)
      case None => FirstWordAltFrom(s, i + 1, alts)
  }

  /** `s.replace(/a|b|.../g, '')`: scanning left to right, the first alternative
      that occurs at the current position is cut out; otherwise the character stays. */
  function RemoveAlts(s: string, alts: seq<string>): (r: string)
    requires forall k :: 0 <= k < |alts| ==> |alts[k]| > 0
    ensures |r| <= |s|
    decreases |s|
  {
    if |s| == 0 then ""
    else match AltAt(s, 0, alts)
      case Some(a) => RemoveAlts(s[|a|..], alts)
      case None => [s[0]] + RemoveAlts(s[1..], alts)
  }

  // ---------------------------------------------------------------------------
  // Ordering, splitting, e-mail shape
  // ---------------------------------------------------------------------------

  /** The binary string order a database sort by a text field uses:
      character by character, a proper prefix first. */
  predicate LexLe(a: string, b: string)
    decreases |a|
  {
    a == [] || (b != [] && (a[0] < b[0] || (a[0] == b[0] && LexLe(a[1..], b[1..]))))
  }

  lemma {:induction false} LexLeTotal(a: string, b: string)
    ensures LexLe(a, b) || LexLe(b, a)
    decreases |a|
  {
    if a != [] && b != [] && a[0] == b[0] {
      LexLeTotal(a[1..], b[1..]);
    }
  }

  lemma {:induction false} LexLeTransitive(a: string, b: string, c: string)
    requires LexLe(a, b) && LexLe(b, c)
    ensures LexLe(a, c)
    decreases |a|
  {
    if a != [] && a[0] == b[0] && b[0] == c[0] {
      LexLeTransitive(a[1..], b[1..], c[1..]);
    }
  }

  /** `s.split(c)` for a one-character separator. */
  function Split(s: string, c: char): (parts: seq<string>)
    ensures |parts| >= 1
    decreases |s|
  {
    if s == [] then [""]
    else if s[0] == c then [""] + Split(s[1..], c)
    else
      var rest := Split(s[1..], c);
      [[s[0]] + rest[0]] + rest[1..]
  }

  /** Splitting and joining again with the same separator gives the text back. */
  lemma {:induction false} JoinSplit(s: string, c: char)
    ensures Join(Split(s, c), [c]) == s
    decreases |s|
  {
    if s != [] {
      var rest := Split(s[1..], c);
      JoinSplit(s[1..], c);
      if s[0] == c {
        assert ([""] + rest)[1..] == rest;
      } else {
        var parts := [[s[0]] + rest[0]] + rest[1..];
        assert parts[1..] == rest[1..];
        if |rest| == 1 {
          assert s == [s[0]] + s[1..];
        } else {
          assert Join(rest, [c]) == rest[0] + [c] + Join(rest[1..], [c]);
          assert s == [s[0]] + s[1..];
        }
      }
    }
  }

  /** No part holds the separator. */
  lemma {:induction false} SplitPartsFree(s: string, c: char)
    ensures forall k :: 0 <= k < |Split(s, c)| ==> c !in Split(s, c)[k]
    decreases |s|
  {
    if s != [] {
      SplitPartsFree(s[1..], c);
      if s[0] != c {
        var rest := Split(s[1..], c);
        assert c !in rest[0];
      }
    }
  }

  /** Text without the separator is a single part. */
  lemma {:induction false} SplitFree(s: string, c: char)
    requires c !in s
    ensures Split(s, c) == [s]
    decreases |s|
  {
    if s != [] {
      SplitFree(s[1..], c);
      assert [s[0]] + s[1..] == s;
    }
  }

  /** The first part is everything before the first separator. */
  lemma {:induction false} SplitAfter(a: string, b: string, c: char)
    requires c !in a
    ensures Split(a + [c] + b, c) == [a] + Split(b, c)
    decreases |a|
  {
    var s := a + [c] + b;
    if a == [] {
      assert s == [c] + b && s[1..] == b;
    } else {
      assert s[0] == a[0] && s[1..] == a[1..] + [c] + b;
      SplitAfter(a[1..], b, c);
      assert [a[0]] + a[1..] == a;
    }
  }

  /** The pattern `^[^\s@]+@[^\s@]+\.[^\s@]+$`: no white space, exactly one `@`
      with text before it, and after it a `.` with text on both sides. */
  predicate LooksLikeEmail(s: string) {
    (forall k :: 0 <= k < |s| ==> !IsSpace(s[k]))
    && exists i :: 0 < i < |s| && s[i] == '@'
         && (forall k :: 0 <= k < |s| && s[k] == '@' ==> k == i)
         && exists j :: i + 1 < j < |s| - 1 && s[j] == '.'
  }
}
