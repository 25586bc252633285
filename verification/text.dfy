/**
  The handful of Python string operations the dispatcher relies on: `strip`,
  `lower`, `in`, `replace(pat, '')`, `split(':')`, `lstrip('-')`, `isdigit`
  and the decimal `int(...)` conversion, together with the decimal rendering
  `str(n)` of an integer.  Characters are code points; case mapping and the
  digit and whitespace classes are those of the code points below U+0100.
*/
module Text {
  import opened Wrappers

  /** A decimal digit, as `int` reads it: below U+0100 only the ASCII digits. */
  predicate IsDigit(c: char) {
    '0' <= c <= '9'
  }

  /** The characters Python's `str.isdigit` accepts below U+0100: the decimal digits and `¹`, `²`, `³`. */
  predicate IsDigitLike(c: char) {
    var k := c as int;
    IsDigit(c) || k == 0xB2 || k == 0xB3 || k == 0xB9
  }

  /** The characters Python's `str.isspace` accepts below U+0100. */
  predicate IsSpace(c: char) {
    var k := c as int;
    (9 <= k <= 13) || (28 <= k <= 32) || k == 0x85 || k == 0xA0
  }

  predicate AllDigits(s: string) {
    forall i :: 0 <= i < |s| ==> IsDigit(s[i])
  }

  /** A non-empty run of decimal digits: what `str(n)` yields for a natural number. */
  predicate IsNumeral(s: string) {
    |s| > 0 && AllDigits(s)
  }

  /** Python's `s.isdigit()`: non-empty and every character digit-like. */
  predicate IsDigitText(s: string) {
    |s| > 0 && forall i :: 0 <= i < |s| ==> IsDigitLike(s[i])
  }

  /** A decimal numeral passes `isdigit`; the converse fails on `²`. */
  lemma NumeralIsDigitText(s: string)
    requires IsNumeral(s)
    ensures IsDigitText(s)
  {
  }

  predicate StartsWith(s: string, c: char) {
    |s| > 0 && s[0] == c
  }

  predicate EndsWith(s: string, c: char) {
    |s| > 0 && s[|s| - 1] == c
  }

  /** `pat in s` for strings: `pat` occurs as a contiguous block of `s`. */
  predicate Contains(s: string, pat: string)
    decreases |s|
  {
    pat <= s || (|s| > 0 && Contains(s[1..], pat))
  }

  /** `lstrip` of whitespace. */
  function TrimStart(s: string): (r: string)
    ensures |r| <= |s| && r == s[|s| - |r|..]
    ensures |r| > 0 ==> !IsSpace(r[0])
    decreases |s|
  {
    if |s| > 0 && IsSpace(s[0]) then TrimStart(s[1..]) else s
  }

  /** `rstrip` of whitespace. */
  function TrimEnd(s: string): (r: string)
    ensures |r| <= |s| && r == s[..|r|]
    ensures |r| > 0 ==> !IsSpace(r[|r| - 1])
    decreases |s|
  {
    if |s| > 0 && IsSpace(s[|s| - 1]) then TrimEnd(s[..|s| - 1]) else s
  }

  /** Python's `s.strip()`. */
  function Strip(s: string): (r: string)
    ensures |r| <= |s|
    ensures |r| > 0 ==> !IsSpace(r[0]) && !IsSpace(r[|r| - 1])
  {
    TrimEnd(TrimStart(s))
  }

  /** `s.lstrip(c)`: drop every leading occurrence of `c`. */
  function DropLeading(s: string, c: char): (r: string)
    ensures |r| <= |s| && r == s[|s| - |r|..]
    ensures forall i :: 0 <= i < |s| - |r| ==> s[i] == c
    ensures !StartsWith(r, c)
    decreases |s|
  {
    if StartsWith(s, c) then DropLeading(s[1..], c) else s
  }

  /** Python's `str.lower` of one character below U+0100: the ASCII and Latin-1 capitals move up by 32. */
  function LowerChar(c: char): char {
    var k := c as int;
    if 0x41 <= k <= 0x5A || (0xC0 <= k <= 0xDE && k != 0xD7) then (k + 32) as char else c
  }

  /** Python's `s.lower()`, character by character. */
  function Lower(s: string): (r: string)
    ensures |r| == |s|
    ensures forall i :: 0 <= i < |s| ==> r[i] == LowerChar(s[i])
  {
    seq(|s|, i requires 0 <= i < |s| => LowerChar(s[i]))
  }

  /** `s.replace(pat, '')`: delete the non-overlapping occurrences of `pat`, scanning left to right. */
  function RemoveAll(s: string, pat: string): (r: string)
    requires |pat| > 0
    ensures |r| <= |s|
    ensures !Contains(s, pat) ==> r == s
    decreases |s|
  {
    if |s| == 0 then s
    else if pat <= s then RemoveAll(s[|pat|..], pat)
    else [s[0]] + RemoveAll(s[1..], pat)
  }

  /** `sep.join(parts)`. */
  function Join(parts: seq<string>, sep: string): string
    decreases |parts|
  {
    if |parts| == 0 then ""
    else if |parts| == 1 then parts[0]
    else parts[0] + sep + Join(parts[1..], sep)
  }

  /** Index of the first occurrence of `c` in `s`, or |s| when there is none. */
  function FindChar(s: string, c: char): (i: nat)
    ensures i <= |s|
    ensures i < |s| ==> s[i] == c
    ensures forall j :: 0 <= j < i ==> s[j] != c
    decreases |s|
  {
    if |s| == 0 then 0
    else if s[0] == c then 0
    else 1 + FindChar(s[1..], c)
  }

  /**
    `a, b = s.split(sep)`: succeeds exactly when `s` holds one occurrence of
    `sep`, and yields the text before and after it.
  */
  function SplitPair(s: string, sep: char): (r: Option<(string, string)>)
    ensures r.Some? <==> (sep in s && sep !in s[FindChar(s, sep) + 1..])
    ensures r.Some? ==> r.value.0 + [sep] + r.value.1 == s && sep !in r.value.0 && sep !in r.value.1
  {
    var i := FindChar(s, sep);
    if i == |s| then None
    else
      var rest := s[i + 1..];
      if sep in rest then None
      else
        assert s[..i] + [sep] + rest == s;
        assert forall j :: 0 <= j < i ==> s[..i][j] == s[j];
        Some((s[..i], rest))
  }

  // ---------------------------------------------------------------------------
  // Decimal integers
  // ---------------------------------------------------------------------------

  /**
    The digit strings Python's `int` accepts in base 10: digits, with single
    underscores allowed between two digits.
  */
  predicate DigitGroups(s: string) {
    && |s| > 0
    && IsDigit(s[0])
    && IsDigit(s[|s| - 1])
    && (forall i :: 0 <= i < |s| ==> IsDigit(s[i]) || s[i] == '_')
    && !Contains(s, "__")
  }

  /** The value of a digit string, underscores skipped. */
  function DigitsValue(s: string): nat
    decreases |s|
  {
    if |s| == 0 then 0
    else if IsDigit(s[|s| - 1]) then 10 * DigitsValue(s[..|s| - 1]) + (s[|s| - 1] as int - '0' as int)
    else DigitsValue(s[..|s| - 1])
  }

  /** Base-10 `int` of an unsigned body. */
  function ParseUnsigned(body: string): Option<int> {
    if DigitGroups(body) then Some(DigitsValue(body)) else None
  }

  /** `int` of a string already stripped: an optional sign, then digit groups. */
  function ParseSigned(t: string): Option<int> {
    if |t| == 0 then None
    else if t[0] == '-' then
      match ParseUnsigned(t[1..])
      case Some(v) => Some(-v)
      case None => None
    else if t[0] == '+' then ParseUnsigned(t[1..])
    else ParseUnsigned(t)
  }

  /** Python's `int(s)`: surrounding whitespace, an optional sign, then digit groups. */
  function ParseInt(s: string): Option<int> {
    ParseSigned(Strip(s))
  }

  function DigitChar(d: nat): (c: char)
    requires d < 10
    ensures IsDigit(c) && c as int - '0' as int == d
  {
    (d + '0' as int) as char
  }

  /** `str(n)` for a natural number. */
  function ShowNat(n: nat): (s: string)
    ensures IsNumeral(s)
    decreases n
  {
    if n < 10 then [DigitChar(n)] else ShowNat(n / 10) + [DigitChar(n % 10)]
  }

  /** `str(n)` for an integer. */
  function ShowInt(n: int): (s: string)
    ensures |s| > 0
    ensures n >= 0 ==> AllDigits(s)
    ensures n < 0 ==> s == "-" + ShowNat(-n)
  {
    if n < 0 then "-" + ShowNat(-n) else ShowNat(n)
  }

  lemma {:induction false} DigitsValueOfShowNat(n: nat)
    ensures DigitsValue(ShowNat(n)) == n
    decreases n
  {
    var s := ShowNat(n);
    if n < 10 {
      assert s[..|s| - 1] == [];
    } else {
      DigitsValueOfShowNat(n / 10);
      assert s[..|s| - 1] == ShowNat(n / 10);
    }
  }

  lemma {:induction false} DigitsHaveNoUnderscore(s: string)
    requires AllDigits(s)
    ensures !Contains(s, "__")
    decreases |s|
  {
    if |s| > 0 {
      assert IsDigit(s[0]);
      assert !("__" <= s);
      DigitsHaveNoUnderscore(s[1..]);
    }
  }

  lemma AllDigitsAreGroups(s: string)
    requires IsNumeral(s)
    ensures DigitGroups(s)
  {
    DigitsHaveNoUnderscore(s);
  }

  /** `strip` leaves a text alone when neither end is blank. */
  lemma StripNoEdgeSpace(s: string)
    requires |s| > 0 && !IsSpace(s[0]) && !IsSpace(s[|s| - 1])
    ensures Strip(s) == s
  {
    assert TrimStart(s) == s;
    assert TrimEnd(s) == s;
  }

  lemma NoSpaceStripsToItself(s: string)
    requires forall i :: 0 <= i < |s| ==> !IsSpace(s[i])
    ensures Strip(s) == s
  {
    if |s| > 0 {
      StripNoEdgeSpace(s);
    }
  }

  lemma NumeralHasNoSpace(t: string)
    requires IsNumeral(t)
    ensures Strip(t) == t
  {
    assert IsDigit(t[0]) && IsDigit(t[|t| - 1]);
    StripNoEdgeSpace(t);
  }

  lemma ParseStripped(t: string)
    requires Strip(t) == t
    ensures ParseInt(t) == ParseSigned(t)
  {
  }

  lemma ParseSignedNumeral(t: string)
    requires IsNumeral(t)
    ensures ParseSigned(t) == Some(DigitsValue(t))
  {
    AllDigitsAreGroups(t);
    assert t[0] != '-' && t[0] != '+' by { assert IsDigit(t[0]); }
  }

  lemma ParseSignedNegated(t: string)
    requires IsNumeral(t)
    ensures ParseSigned("-" + t) == Some(-(DigitsValue(t) as int))
  {
    AllDigitsAreGroups(t);
    var s := "-" + t;
    assert s[0] == '-' && s[1..] == t;
  }

  lemma ParseDigitString(t: string)
    requires IsNumeral(t)
    ensures ParseInt(t) == Some(DigitsValue(t))
  {
    NumeralHasNoSpace(t);
    ParseStripped(t);
    ParseSignedNumeral(t);
  }

  lemma ParseNegatedDigitString(t: string, v: nat)
    requires IsNumeral(t) && DigitsValue(t) == v
    ensures ParseInt("-" + t) == Some(-(v as int))
  {
    var s := "-" + t;
    assert s[0] == '-' && s[|s| - 1] == t[|t| - 1];
    assert IsDigit(t[|t| - 1]);
    StripNoEdgeSpace(s);
    ParseStripped(s);
    ParseSignedNegated(t);
  }

  lemma ParseNatText(n: nat)
    ensures ParseInt(ShowNat(n)) == Some(n)
  {
    var t := ShowNat(n);
    ParseDigitString(t);
    DigitsValueOfShowNat(n);
  }

  lemma ParseNegativeText(n: int)
    requires n < 0
    ensures ParseInt("-" + ShowNat(-n)) == Some(n)
  {
    var k: nat := -n;
    DigitsValueOfShowNat(k);
    ParseNegatedDigitString(ShowNat(k), k);
  }

  /** `int(str(n)) == n`: rendering an integer and parsing it back is the identity. */
  lemma ParseShowRoundTrip(n: int)
    ensures ParseInt(ShowInt(n)) == Some(n)
  {
    if n < 0 {
      ParseNegativeText(n);
    } else {
      ParseNatText(n);
    }
  }

  /** A string that contains `pat` contains its first character. */
  lemma {:induction false} ContainsHead(s: string, pat: string)
    requires |pat| > 0 && Contains(s, pat)
    ensures pat[0] in s
    decreases |s|
  {
    if pat <= s {
      assert s[0] == pat[0];
    } else {
      ContainsHead(s[1..], pat);
      var k :| 0 <= k < |s[1..]| && s[1..][k] == pat[0];
      assert s[k + 1] == pat[0];
    }
  }

  /** `(a + sep + b).split(sep)` is `[a, b]` when neither part holds `sep`. */
  lemma SplitPairOf(a: string, sep: char, b: string)
    requires sep !in a && sep !in b
    ensures SplitPair(a + [sep] + b, sep) == Some((a, b))
  {
    var s := a + [sep] + b;
    assert s[|a|] == sep;
    assert forall j :: 0 <= j < |a| ==> s[j] == a[j];
    var i := FindChar(s, sep);
    assert i == |a|;
    assert s[i + 1..] == b;
    assert s[..i] == a;
  }

  /** One leading blank in front of a text without surrounding whitespace is stripped. */
  lemma StripLeadingBlank(t: string)
    requires forall i :: 0 <= i < |t| ==> !IsSpace(t[i])
    ensures Strip(" " + t) == t
  {
    var s := " " + t;
    assert IsSpace(s[0]) && s[1..] == t;
    assert TrimStart(s) == TrimStart(t);
    if |t| > 0 {
      StripNoEdgeSpace(t);
    }
  }
}
