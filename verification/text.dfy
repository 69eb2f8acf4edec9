/** Character classes and string primitives with Python's `str` semantics,
    as the scripts use them: `str.isspace` / regex `\s`, regex `\w`, the
    `[0-9]` digit class, `upper()`/`lower()`, `strip()`, `zfill()`, substring
    search (`in`) and code-point ordering of strings (`<` on `str`). */
module Text {
  import opened Basics

  // ---------------------------------------------------------------------------
  // Character classes

  /** Python's `str.isspace()`, which is also what regex `\s` matches in a
      `str` pattern. */
  predicate IsSpace(c: char) {
    || ('\t' <= c <= '\r')
    || ('\U{1C}' <= c <= '\U{1F}')
    || c == ' ' || c == '\U{85}' || c == '\U{A0}' || c == '\U{1680}'
    || ('\U{2000}' <= c <= '\U{200A}')
    || c == '\U{2028}' || c == '\U{2029}' || c == '\U{202F}' || c == '\U{205F}'
    || c == '\U{3000}'
  }

  /** The regex class `[0-9]`. */
  predicate IsDigit(c: char) {
    '0' <= c <= '9'
  }

  predicate IsAsciiUpper(c: char) {
    'A' <= c <= 'Z'
  }

  predicate IsAsciiLower(c: char) {
    'a' <= c <= 'z'
  }

  predicate IsAscii(c: char) {
    c < '\U{80}'
  }

  /** The regex class `[A-Z0-9]`. */
  predicate IsUpperAlnum(c: char) {
    IsAsciiUpper(c) || IsDigit(c)
  }

  /** Regex `\w` on `str`: letters, digits, numerics and `_`. Exact for the
      Latin-1 range and for U+039C and U+0178, the two letters outside it
      that `Upper` makes of Latin-1 text (from `µ` and `ÿ`); other code
      points above U+00FF count as non-word characters. */
  predicate IsWordChar(c: char) {
    || IsAsciiUpper(c) || IsAsciiLower(c) || IsDigit(c) || c == '_'
    || c == '\U{AA}' || c == '\U{B2}' || c == '\U{B3}' || c == '\U{B5}'
    || c == '\U{B9}' || c == '\U{BA}' || ('\U{BC}' <= c <= '\U{BE}')
    || ('\U{C0}' <= c <= '\U{FF}' && c != '\U{D7}' && c != '\U{F7}')
    || c == '\U{39C}' || c == '\U{178}'
  }

  predicate AllDigits(s: string) {
    forall i :: 0 <= i < |s| ==> IsDigit(s[i])
  }

  predicate AllAscii(s: string) {
    forall i :: 0 <= i < |s| ==> IsAscii(s[i])
  }

  /** No two adjacent characters are both whitespace. */
  predicate NoDoubleSpace(s: string) {
    forall i :: 0 <= i < |s| - 1 ==> !(IsSpace(s[i]) && IsSpace(s[i + 1]))
  }

  // ---------------------------------------------------------------------------
  // Case mapping

  /** `str.upper()` of one character, exact on Latin-1 (including the two
      mappings that leave Latin-1 and the one that lengthens: `ß` to `SS`). */
  function UpperChar(c: char): (r: string)
    ensures IsAsciiLower(c) ==> r == [c - 'a' as char + 'A' as char]
    ensures !IsAsciiLower(c) && IsAscii(c) ==> r == [c]
    ensures 1 <= |r| <= 2
  {
    if IsAsciiLower(c) then [(c as int - 32) as char]
    else if ('\U{E0}' <= c <= '\U{FE}') && c != '\U{F7}' then [(c as int - 32) as char]
    else if c == '\U{DF}' then "SS"
    else if c == '\U{FF}' then "\U{178}"
    else if c == '\U{B5}' then "\U{39C}"
    else [c]
  }

  function Upper(s: string): (r: string)
  {
    if |s| == 0 then "" else UpperChar(s[0]) + Upper(s[1..])
  }

  /** Upper-casing a Latin-1 character keeps its `\w` class, so `\b` after
      `Upper` falls where it fell before. */
  lemma UpperCharWordClass(c: char)
    requires c as int <= 0xFF
    ensures forall i :: 0 <= i < |UpperChar(c)| ==> (IsWordChar(UpperChar(c)[i]) <==> IsWordChar(c))
  {
  }

  /** `str.lower()` of one character, exact on Latin-1 upper-case letters. */
  function LowerChar(c: char): (r: char)
    ensures IsAsciiUpper(c) ==> IsAsciiLower(r)
    ensures !IsAsciiUpper(c) && IsAscii(c) ==> r == c
  {
    if IsAsciiUpper(c) then (c as int + 32) as char
    else if ('\U{C0}' <= c <= '\U{DE}') && c != '\U{D7}' then (c as int + 32) as char
    else c
  }

  function Lower(s: string): (r: string)
    ensures |r| == |s|
    ensures forall i :: 0 <= i < |s| ==> r[i] == LowerChar(s[i])
  {
    if |s| == 0 then "" else [LowerChar(s[0])] + Lower(s[1..])
  }

  lemma {:induction false} UpperAppend(a: string, b: string)
    ensures Upper(a + b) == Upper(a) + Upper(b)
  {
    if |a| == 0 {
      assert a + b == b;
    } else {
      AppendTail(a, b);
      UpperAppend(a[1..], b);
    }
  }

  /** Characters `upper()` maps to themselves; every character it produces
      is one of them. */
  predicate UpperFixed(c: char) {
    UpperChar(c) == [c]
  }

  lemma UpperCharFixed(c: char)
    ensures forall x :: x in UpperChar(c) ==> UpperFixed(x)
  {
  }

  /** Text made only of fixed characters is its own upper case. */
  lemma {:induction false} UpperOfFixed(s: string)
    requires forall c :: c in s ==> UpperFixed(c)
    ensures Upper(s) == s
  {
    if |s| > 0 {
      assert s[0] in s && forall c :: c in s[1..] ==> c in s;
      UpperOfFixed(s[1..]);
      assert s == [s[0]] + s[1..];
    }
  }

  /** `upper()` is idempotent. */
  lemma {:induction false} UpperIdempotent(s: string)
    ensures Upper(Upper(s)) == Upper(s)
  {
    if |s| > 0 {
      var h := UpperChar(s[0]);
      UpperCharFixed(s[0]);
      UpperOfFixed(h);
      UpperIdempotent(s[1..]);
      UpperAppend(h, Upper(s[1..]));
    }
  }

  /** On ASCII text `upper()` keeps the length and leaves no lower-case letter. */
  lemma {:induction false} UpperAscii(s: string)
    requires AllAscii(s)
    ensures |Upper(s)| == |s|
    ensures AllAscii(Upper(s))
    ensures forall i :: 0 <= i < |s| ==> !IsAsciiLower(Upper(s)[i])
    ensures forall i :: 0 <= i < |s| ==> (IsSpace(Upper(s)[i]) <==> IsSpace(s[i]))
    ensures forall i :: 0 <= i < |s| && !IsAsciiLower(s[i]) ==> Upper(s)[i] == s[i]
  {
    if |s| > 0 {
      UpperAscii(s[1..]);
    }
  }

  // ---------------------------------------------------------------------------
  // Substrings

  predicate StartsWith(s: string, p: string) {
    |p| <= |s| && s[..|p|] == p
  }

  predicate EndsWith(s: string, p: string) {
    |p| <= |s| && s[|s| - |p|..] == p
  }

  /** Python's `needle in hay` for strings. */
  predicate Contains(hay: string, needle: string)
    decreases |hay|
  {
    StartsWith(hay, needle) || (|hay| > 0 && Contains(hay[1..], needle))
  }

  lemma {:induction false} ContainsAt(hay: string, needle: string, i: nat)
    requires i + |needle| <= |hay| && hay[i..i + |needle|] == needle
    ensures Contains(hay, needle)
    decreases i
  {
    if i > 0 {
      assert hay[1..][i - 1..i - 1 + |needle|] == needle;
      ContainsAt(hay[1..], needle, i - 1);
    }
  }

  /** Every character of a contained string occurs in the containing one,
      so a needle with a character the haystack lacks is not contained. */
  lemma {:induction false} ContainsHasChars(hay: string, needle: string, j: nat)
    requires Contains(hay, needle) && j < |needle|
    ensures needle[j] in hay
    decreases |hay|
  {
    if StartsWith(hay, needle) {
      assert hay[j] == needle[j];
    } else {
      ContainsHasChars(hay[1..], needle, j);
      assert needle[j] in hay[1..];
    }
  }

  /** No `a` in `t` is directly followed by `b`. */
  predicate NoPair(t: string, a: char, b: char)
    decreases |t|
  {
    |t| < 2 || (!(t[0] == a && t[1] == b) && NoPair(t[1..], a, b))
  }

  lemma {:induction false} NoPairWithout(t: string, a: char, b: char)
    requires a !in t
    ensures NoPair(t, a, b)
    decreases |t|
  {
    if |t| >= 2 {
      NoPairWithout(t[1..], a, b);
    }
  }

  /** A needle whose first two characters never stand side by side in
      `t` does not occur in it. */
  lemma {:induction false} AbsentByPair(t: string, p: string)
    requires |p| >= 2 && NoPair(t, p[0], p[1])
    ensures !Contains(t, p)
    decreases |t|
  {
    if |t| > 0 {
      if |p| <= |t| {
        assert t[..|p|][0] == t[0] && t[..|p|][1] == t[1];
      }
      if |t| >= 2 {
        AbsentByPair(t[1..], p);
      }
    }
  }

  /** A needle with a character the haystack lacks is not contained. */
  lemma AbsentByChar(t: string, p: string, j: nat)
    requires j < |p| && p[j] !in t
    ensures !Contains(t, p)
  {
    if Contains(t, p) {
      ContainsHasChars(t, p, j);
    }
  }

  // ---------------------------------------------------------------------------
  // Stripping

  /** `r` occurs in `s` starting at index `i`. */
  predicate SliceAt(s: string, r: string, i: nat) {
    i + |r| <= |s| && s[i..i + |r|] == r
  }

  function StripLeft(s: string, drop: set<char>): (r: string)
    ensures |r| <= |s| && r == s[|s| - |r|..]
    ensures |r| > 0 ==> r[0] !in drop
    ensures forall i :: 0 <= i < |s| - |r| ==> s[i] in drop
  {
    if |s| > 0 && s[0] in drop then
      var r := StripLeft(s[1..], drop);
      assert s[1..][|s| - 1 - |r|..] == s[|s| - |r|..];
      assert forall i :: 1 <= i < |s| - |r| ==> s[i] == s[1..][i - 1];
      r
    else s
  }

  function StripRight(s: string, drop: set<char>): (r: string)
    ensures |r| <= |s| && r == s[..|r|]
    ensures |r| > 0 ==> r[|r| - 1] !in drop
    ensures forall i :: |r| <= i < |s| ==> s[i] in drop
  {
    if |s| > 0 && s[|s| - 1] in drop then StripRight(s[..|s| - 1], drop) else s
  }

  /** `s.strip(chars)`: removes every leading and trailing character of the
      set `drop`. */
  function StripChars(s: string, drop: set<char>): (r: string)
    ensures |r| > 0 ==> r[0] !in drop && r[|r| - 1] !in drop
    ensures exists i :: SliceAt(s, r, i)
  {
    var l := StripLeft(s, drop);
    var r := StripRight(l, drop);
    assert SliceAt(s, r, |s| - |l|);
    r
  }

  /** Python's `strip()` without arguments: whitespace at both ends. */
  function StripLeftSpace(s: string): (r: string)
    ensures |r| <= |s| && r == s[|s| - |r|..]
    ensures |r| > 0 ==> !IsSpace(r[0])
  {
    if |s| > 0 && IsSpace(s[0]) then StripLeftSpace(s[1..]) else s
  }

  function StripRightSpace(s: string): (r: string)
    ensures |r| <= |s| && r == s[..|r|]
    ensures |r| > 0 ==> !IsSpace(r[|r| - 1])
  {
    if |s| > 0 && IsSpace(s[|s| - 1]) then StripRightSpace(s[..|s| - 1]) else s
  }

  function Strip(s: string): (r: string)
    ensures |r| > 0 ==> !IsSpace(r[0]) && !IsSpace(r[|r| - 1])
    ensures exists i :: SliceAt(s, r, i)
  {
    var l := StripLeftSpace(s);
    var r := StripRightSpace(l);
    assert SliceAt(s, r, |s| - |l|);
    r
  }

  /** A string already without whitespace at its ends is its own strip. */
  lemma StripOfStripped(s: string)
    requires |s| > 0 ==> !IsSpace(s[0]) && !IsSpace(s[|s| - 1])
    ensures Strip(s) == s
  {
  }

  lemma StripIdempotent(s: string)
    ensures Strip(Strip(s)) == Strip(s)
  {
    StripOfStripped(Strip(s));
  }

  /** A piece of a string without adjacent whitespace has none either. */
  lemma SliceNoDoubleSpace(s: string, i: nat, j: nat)
    requires i <= j <= |s| && NoDoubleSpace(s)
    ensures NoDoubleSpace(s[i..j])
  {
    forall k | 0 <= k < j - i - 1
      ensures !(IsSpace(s[i..j][k]) && IsSpace(s[i..j][k + 1]))
    {
      assert s[i..j][k] == s[i + k] && s[i..j][k + 1] == s[i + k + 1];
    }
  }

  lemma StripKeepsNoDoubleSpace(s: string, drop: set<char>)
    requires NoDoubleSpace(s)
    ensures NoDoubleSpace(StripChars(s, drop))
  {
    var l := StripLeft(s, drop);
    var r := StripRight(l, drop);
    assert r == s[|s| - |l|..|s| - |l| + |r|];
    SliceNoDoubleSpace(s, |s| - |l|, |s| - |l| + |r|);
  }

  // ---------------------------------------------------------------------------
  // Digits

  /** `re.sub(r"\D", "", s)`: the digits of `s`, in order. */
  function Digits(s: string): (r: string)
    ensures AllDigits(r)
    ensures |r| <= |s|
  {
    if |s| == 0 then ""
    else if IsDigit(s[0]) then [s[0]] + Digits(s[1..])
    else Digits(s[1..])
  }

  lemma {:induction false} DigitsAppend(a: string, b: string)
    ensures Digits(a + b) == Digits(a) + Digits(b)
  {
    if |a| == 0 {
      assert a + b == b;
    } else {
      AppendTail(a, b);
      DigitsAppend(a[1..], b);
    }
  }

  /** Digit strings pass through `Digits` unchanged; in particular `Digits`
      is idempotent. */
  lemma {:induction false} DigitsOfDigits(s: string)
    requires AllDigits(s)
    ensures Digits(s) == s
  {
    if |s| > 0 {
      DigitsOfDigits(s[1..]);
    }
  }

  function Repeat(c: char, n: nat): (r: string)
    ensures |r| == n && forall i :: 0 <= i < n ==> r[i] == c
  {
    if n == 0 then "" else [c] + Repeat(c, n - 1)
  }

  /** Python's `s.zfill(width)`: left-pads with `0` to `width`, keeping a
      leading sign in front of the padding. */
  function Zfill(s: string, width: int): (r: string)
    ensures |s| >= width ==> r == s
    ensures |s| < width ==> |r| == width
    ensures |s| < width && (|s| == 0 || (s[0] != '+' && s[0] != '-')) ==>
              r == Repeat('0', width - |s|) + s
  {
    if |s| >= width then s
    else if |s| > 0 && (s[0] == '+' || s[0] == '-') then [s[0]] + Repeat('0', width - |s|) + s[1..]
    else Repeat('0', width - |s|) + s
  }

  /** A digit string is left-padded with zeros: the result is all digits,
      exactly `max(width, |s|)` long, and ends with `s`. */
  lemma ZfillDigits(s: string, width: nat)
    requires AllDigits(s)
    ensures AllDigits(Zfill(s, width))
    ensures |Zfill(s, width)| == if |s| >= width then |s| else width
    ensures EndsWith(Zfill(s, width), s)
  {
    if |s| < width {
      var z := Zfill(s, width);
      assert z == Repeat('0', width - |s|) + s;
      assert z[|z| - |s|..] == s;
    }
  }

  // ---------------------------------------------------------------------------
  // Ordering of strings by code point, as Python compares `str` values

  predicate StrLe(a: string, b: string)
    decreases |a|
  {
    |a| == 0 || (|b| > 0 && (a[0] < b[0] || (a[0] == b[0] && StrLe(a[1..], b[1..]))))
  }

  lemma {:induction false} StrLeRefl(a: string)
    ensures StrLe(a, a)
    decreases |a|
  {
    if |a| > 0 {
      StrLeRefl(a[1..]);
    }
  }

  lemma {:induction false} StrLeTotal(a: string, b: string)
    ensures StrLe(a, b) || StrLe(b, a)
    decreases |a|
  {
    if |a| > 0 && |b| > 0 && a[0] == b[0] {
      StrLeTotal(a[1..], b[1..]);
    }
  }

  lemma {:induction false} StrLeTrans(a: string, b: string, c: string)
    requires StrLe(a, b) && StrLe(b, c)
    ensures StrLe(a, c)
    decreases |a|
  {
    if |a| > 0 && a[0] == b[0] && b[0] == c[0] {
      StrLeTrans(a[1..], b[1..], c[1..]);
    }
  }

  lemma {:induction false} StrLeAntisym(a: string, b: string)
    requires StrLe(a, b) && StrLe(b, a)
    ensures a == b
    decreases |a|
  {
    if |a| > 0 {
      StrLeAntisym(a[1..], b[1..]);
      assert a == [a[0]] + a[1..] && b == [b[0]] + b[1..];
    }
  }

  // ---------------------------------------------------------------------------
  // Decimal numbers

  function DigitValue(c: char): (v: int)
    requires IsDigit(c)
    ensures 0 <= v <= 9
  {
    c as int - '0' as int
  }

  function DigitChar(d: int): (c: char)
    requires 0 <= d <= 9
    ensures IsDigit(c) && DigitValue(c) == d
  {
    (d + '0' as int) as char
  }

  /** The value of a run of decimal digits. */
  function DecimalValue(s: string): (v: nat)
    requires AllDigits(s)
    decreases |s|
  {
    if |s| == 0 then 0 else DecimalValue(s[..|s| - 1]) * 10 + DigitValue(s[|s| - 1])
  }

  /** The decimal text of a natural number. */
  function Decimal(n: nat): (s: string)
    ensures |s| > 0 && AllDigits(s)
  {
    if n < 10 then [DigitChar(n)] else Decimal(n / 10) + [DigitChar(n % 10)]
  }

  /** `str(n)` of a Python int: the decimal text, with `-` when negative. */
  function IntText(n: int): (s: string)
    ensures |s| > 0
    ensures n >= 0 ==> AllDigits(s)
    ensures n < 0 ==> s[0] == '-' && AllDigits(s[1..])
  {
    if n < 0 then "-" + Decimal(-n) else Decimal(n)
  }
}
