/** `normalize_for_geocode` (mapa.py:140-170): a raw registry address becomes
    a cleaned base string plus the CEP (postal code) found after a `CEP`
    marker. Each regex rewrite of the source is one scanning function here,
    with the leftmost-first, non-overlapping semantics of `re.sub`. */
module Normalize {
  import opened Basics
  import opened Text

  /** The street-type prefixes, in the order they are applied. */
  const Prefixes: seq<string> := [
    "RUA", "AVENIDA", "AV", "ALAMEDA", "TRAVESSA", "ESTRADA", "RODOVIA", "ROD",
    "PRA\U{C7}A", "PRACA", "LARGO", "VIA", "VIELA", "SERVIDAO", "SERVID\U{C3}O", "PARQUE"
  ]

  /** The characters `strip(' ,;-')` removes from both ends of the base. */
  const EdgeJunk: set<char> := {' ', ',', ';', '-'}

  datatype Normalized = Normalized(base: string, cep: Option<string>)

  /** Regex `\b` between the previous character (whether it was a word
      character; false at the start of the string) and `c`. */
  predicate Boundary(prevWord: bool, c: char) {
    prevWord != IsWordChar(c)
  }

  /** The first index at or after `i` that is not whitespace. */
  function SkipSpaces(t: string, i: nat): (j: nat)
    requires i <= |t|
    ensures i <= j <= |t|
    ensures forall k :: i <= k < j ==> IsSpace(t[k])
    ensures j == |t| || !IsSpace(t[j])
    decreases |t| - i
  {
    if i < |t| && IsSpace(t[i]) then SkipSpaces(t, i + 1) else i
  }

  /** The first index at or after `i` that is not a digit. */
  function SkipDigits(t: string, i: nat): (j: nat)
    requires i <= |t|
    ensures i <= j <= |t|
    ensures forall k :: i <= k < j ==> IsDigit(t[k])
    ensures j == |t| || !IsDigit(t[j])
    decreases |t| - i
  {
    if i < |t| && IsDigit(t[i]) then SkipDigits(t, i + 1) else i
  }

  predicate DigitsAt(t: string, i: nat, n: nat) {
    i + n <= |t| && forall k :: i <= k < i + n ==> IsDigit(t[k])
  }

  // ---------------------------------------------------------------------------
  // Step 1 (line 151): `re.sub(rf'\b{p}(?=[A-Z0-9])', f'{p} ', t)`

  /** The pattern matches at the start of `t`. */
  predicate PrefixMatch(t: string, p: string, prevWord: bool) {
    && 0 < |p| < |t|
    && t[..|p|] == p
    && Boundary(prevWord, t[0])
    && IsUpperAlnum(t[|p|])
  }

  function SplitPrefix(t: string, p: string, prevWord: bool): (r: string)
    decreases |t|
  {
    if |t| == 0 then ""
    else if PrefixMatch(t, p, prevWord) then
      p + " " + SplitPrefix(t[|p|..], p, IsWordChar(t[|p| - 1]))
    else [t[0]] + SplitPrefix(t[1..], p, IsWordChar(t[0]))
  }

  /** The loop over the prefix list: one full rewrite pass per prefix. */
  function SplitPrefixes(t: string, ps: seq<string>): string
    decreases |ps|
  {
    if |ps| == 0 then t else SplitPrefixes(SplitPrefix(t, ps[0], false), ps[1..])
  }

  // ---------------------------------------------------------------------------
  // Step 2 (line 154): `re.sub(r'\bKM\s*([0-9]+[,\.]?[0-9]*)', r'KM \1', t)`

  /** End of the group `[0-9]+[,\.]?[0-9]*` that starts at digit `j`. */
  function KmGroupEnd(t: string, j: nat): (e: nat)
    requires j < |t| && IsDigit(t[j])
    ensures j < e <= |t|
  {
    var a := SkipDigits(t, j);
    var b := if a < |t| && (t[a] == ',' || t[a] == '.') then a + 1 else a;
    SkipDigits(t, b)
  }

  function NormalizeKm(t: string, prevWord: bool): (r: string)
    decreases |t|
  {
    if |t| == 0 then ""
    else if 2 <= |t| && t[..2] == "KM" && Boundary(prevWord, t[0])
         && SkipSpaces(t, 2) < |t| && IsDigit(t[SkipSpaces(t, 2)]) then
      var j := SkipSpaces(t, 2);
      var e := KmGroupEnd(t, j);
      "KM " + t[j..e] + NormalizeKm(t[e..], IsWordChar(t[e - 1]))
    else [t[0]] + NormalizeKm(t[1..], IsWordChar(t[0]))
  }

  // ---------------------------------------------------------------------------
  // Step 3 (line 157): `re.sub(r'\s*-\s*\d{2}\s*/\s*[A-Z]{2}\s*-?', ' ', t)`

  /** Length of the ` - NN/UF - ` fragment at the start of `t`, if any. */
  function CodeBlockEnd(t: string): (r: Option<nat>)
    ensures r.Some? ==> 0 < r.value <= |t|
  {
    var a := SkipSpaces(t, 0);
    if a < |t| && t[a] == '-' then
      var b := SkipSpaces(t, a + 1);
      if DigitsAt(t, b, 2) then
        var c := SkipSpaces(t, b + 2);
        if c < |t| && t[c] == '/' then
          var d := SkipSpaces(t, c + 1);
          if d + 2 <= |t| && IsAsciiUpper(t[d]) && IsAsciiUpper(t[d + 1]) then
            var e := SkipSpaces(t, d + 2);
            Some(if e < |t| && t[e] == '-' then e + 1 else e)
          else None
        else None
      else None
    else None
  }

  function RemoveCodeBlocks(t: string): (r: string)
    decreases |t|
  {
    if |t| == 0 then ""
    else match CodeBlockEnd(t)
      case Some(n) => " " + RemoveCodeBlocks(t[n..])
      case None => [t[0]] + RemoveCodeBlocks(t[1..])
  }

  // ---------------------------------------------------------------------------
  // Step 4 (lines 160-164): `re.search(r'CEP\s*([0-9]{5}-?[0-9]{3})', t)`

  /** A match of the CEP pattern at index `i`: the span of its group. */
  datatype CepMatch = CepMatch(start: nat, groupStart: nat, end: nat)

  function CepAt(t: string, i: nat): (r: Option<CepMatch>)
    ensures r.Some? ==> r.value.start == i && i + 3 <= r.value.groupStart && r.value.groupStart + 8 <= r.value.end <= |t|
  {
    if i + 3 <= |t| && t[i..i + 3] == "CEP" then
      var j := SkipSpaces(t, i + 3);
      if DigitsAt(t, j, 5) then
        var k := j + 5;
        if k < |t| && t[k] == '-' && DigitsAt(t, k + 1, 3) then Some(CepMatch(i, j, k + 4))
        else if DigitsAt(t, k, 3) then Some(CepMatch(i, j, k + 3))
        else None
      else None
    else None
  }

  /** The leftmost match at or after `i`. */
  function FindCep(t: string, i: nat): (r: Option<CepMatch>)
    requires i <= |t|
    ensures r.Some? ==> i <= r.value.start && CepAt(t, r.value.start) == r
    ensures r.Some? ==> forall k :: i <= k < r.value.start ==> CepAt(t, k).None?
    ensures r.None? ==> forall k :: i <= k <= |t| ==> CepAt(t, k).None?
    decreases |t| - i
  {
    var here := CepAt(t, i);
    if here.Some? then here
    else if i == |t| then None
    else
      var r := FindCep(t, i + 1);
      assert forall k :: i < k <= |t| && (r.None? || k < r.value.start) ==> CepAt(t, k).None?;
      r
  }

  /** A captured CEP: five digits, an optional `-`, three digits. */
  predicate IsCepText(c: string) {
    || (|c| == 8 && AllDigits(c))
    || (|c| == 9 && AllDigits(c[..5]) && c[5] == '-' && AllDigits(c[6..]))
  }

  /** Cuts the first CEP out of `t` and returns it. */
  function ExtractCep(t: string): (r: (string, Option<string>))
    ensures r.1.Some? ==> IsCepText(r.1.value)
    ensures r.1.None? ==> r.0 == t && forall k :: 0 <= k <= |t| ==> CepAt(t, k).None?
    ensures r.1.Some? ==> exists k :: CutAt(t, r.0, r.1.value, k)
  {
    match FindCep(t, 0)
    case None => (t, None)
    case Some(m) =>
      var cep := t[m.groupStart..m.end];
      CepCaptured(t, m.start);
      assert CutAt(t, t[..m.start] + t[m.end..], cep, m.start);
      (t[..m.start] + t[m.end..], Some(cep))
  }

  /** What a match captures is a CEP. */
  lemma CepCaptured(t: string, i: nat)
    requires CepAt(t, i).Some?
    ensures IsCepText(t[CepAt(t, i).value.groupStart..CepAt(t, i).value.end])
  {
    var m := CepAt(t, i).value;
    var j := m.groupStart;
    var cep := t[j..m.end];
    if m.end == j + 9 {
      assert DigitsAt(t, j, 5) && DigitsAt(t, j + 6, 3);
      assert cep[..5] == t[j..j + 5];
      assert cep[6..] == t[j + 6..j + 9];
    } else {
      assert DigitsAt(t, j, 5) && DigitsAt(t, j + 5, 3);
      assert forall k :: 0 <= k < 8 ==> cep[k] == t[j + k];
    }
  }

  /** `rest` is `t` with the leftmost CEP match, which starts at `k` and
      captures `cep`, removed. */
  predicate CutAt(t: string, rest: string, cep: string, k: nat) {
    && CepAt(t, k).Some?
    && (forall i :: 0 <= i < k ==> CepAt(t, i).None?)
    && cep == t[CepAt(t, k).value.groupStart..CepAt(t, k).value.end]
    && rest == t[..k] + t[CepAt(t, k).value.end..]
  }

  // ---------------------------------------------------------------------------
  // Step 5 (lines 167-169): final clean-up

  /** `t.replace(' - ', ', ')`. */
  function ReplaceDashes(t: string): (r: string)
    decreases |t|
  {
    if |t| == 0 then ""
    else if 3 <= |t| && t[..3] == " - " then ", " + ReplaceDashes(t[3..])
    else [t[0]] + ReplaceDashes(t[1..])
  }

  /** Length of the `\s*,\s*` match at the start of `t`, if any. */
  function CommaEnd(t: string): (r: Option<nat>)
    ensures r.Some? ==> 0 < r.value <= |t|
  {
    var a := SkipSpaces(t, 0);
    if a < |t| && t[a] == ',' then Some(SkipSpaces(t, a + 1)) else None
  }

  /** `re.sub(r'\s*,\s*', ', ', t)`. */
  function SpaceCommas(t: string): (r: string)
    decreases |t|
  {
    if |t| == 0 then ""
    else match CommaEnd(t)
      case Some(n) => ", " + SpaceCommas(t[n..])
      case None => [t[0]] + SpaceCommas(t[1..])
  }

  /** `re.sub(r'\s{2,}', ' ', t)`: every run of two or more whitespace
      characters becomes one space; a lone whitespace character stays. */
  function CollapseSpaces(t: string): (r: string)
    ensures NoDoubleSpace(r)
    ensures |r| == 0 <==> |t| == 0
    ensures |t| > 0 ==> (IsSpace(r[0]) <==> IsSpace(t[0]))
    decreases |t|
  {
    if |t| == 0 then ""
    else
      var n := SkipSpaces(t, 0);
      if n >= 2 then
        var rest := CollapseSpaces(t[n..]);
        assert n < |t| ==> !IsSpace(t[n..][0]);
        " " + rest
      else
        var rest := CollapseSpaces(t[1..]);
        assert n == 1 && 1 < |t| ==> !IsSpace(t[1..][0]);
        [t[0]] + rest
  }

  function Cleanup(t: string): (r: string)
    ensures |r| > 0 ==> r[0] !in EdgeJunk && r[|r| - 1] !in EdgeJunk
    ensures NoDoubleSpace(r)
  {
    var c := CollapseSpaces(SpaceCommas(ReplaceDashes(t)));
    StripKeepsNoDoubleSpace(c, EdgeJunk);
    StripChars(c, EdgeJunk)
  }

  // ---------------------------------------------------------------------------
  // What the rewrite passes change

  /** `s` with every space character removed. */
  function DropSpaces(s: string): (r: string)
    ensures ' ' !in r
    ensures |r| <= |s|
  {
    if |s| == 0 then ""
    else (if s[0] == ' ' then "" else [s[0]]) + DropSpaces(s[1..])
  }

  lemma {:induction false} DropSpacesAppend(a: string, b: string)
    ensures DropSpaces(a + b) == DropSpaces(a) + DropSpaces(b)
    decreases |a|
  {
    if |a| == 0 {
      assert a + b == b;
    } else {
      AppendTail(a, b);
      DropSpacesAppend(a[1..], b);
    }
  }

  lemma {:induction false} DropSpacesOfSpaceless(s: string)
    requires ' ' !in s
    ensures DropSpaces(s) == s
    decreases |s|
  {
    if |s| > 0 {
      assert ' ' !in s[1..];
      DropSpacesOfSpaceless(s[1..]);
    }
  }

  /** A prefix pass only inserts spaces: removing every space from its
      output gives the input with every space removed. */
  lemma {:induction false} SplitPrefixOnlyInsertsSpaces(t: string, p: string, prevWord: bool)
    requires ' ' !in p
    ensures DropSpaces(SplitPrefix(t, p, prevWord)) == DropSpaces(t)
    decreases |t|
  {
    if |t| == 0 {
    } else if PrefixMatch(t, p, prevWord) {
      var w := IsWordChar(t[|p| - 1]);
      SplitPrefixOnlyInsertsSpaces(t[|p|..], p, w);
      InsertedSpaceDrops(t, p, SplitPrefix(t[|p|..], p, w));
    } else {
      var w := IsWordChar(t[0]);
      SplitPrefixOnlyInsertsSpaces(t[1..], p, w);
      DropSpacesAppend([t[0]], SplitPrefix(t[1..], p, w));
      assert t == [t[0]] + t[1..];
      DropSpacesAppend([t[0]], t[1..]);
    }
  }

  /** The step of a matched prefix: `p + " " + out` loses only the space. */
  lemma InsertedSpaceDrops(t: string, p: string, out: string)
    requires ' ' !in p && |p| <= |t| && t[..|p|] == p
    requires DropSpaces(out) == DropSpaces(t[|p|..])
    ensures DropSpaces(p + " " + out) == DropSpaces(t)
  {
    var rest := t[|p|..];
    assert t == p + rest;
    assert DropSpaces(" ") == "" by {
      assert " "[1..] == "";
    }
    DropSpacesOfSpaceless(p);
    calc {
      DropSpaces(p + " " + out);
      { DropSpacesAppend(p + " ", out); }
      DropSpaces(p + " ") + DropSpaces(out);
      { DropSpacesAppend(p, " "); assert DropSpaces(p) + DropSpaces(" ") == p; }
      p + DropSpaces(out);
      p + DropSpaces(rest);
      { DropSpacesAppend(p, rest); }
      DropSpaces(t);
    }
  }

  /** The loop over all prefixes only inserts spaces too. */
  lemma {:induction false} SplitPrefixesOnlyInsertSpaces(t: string, ps: seq<string>)
    requires forall i :: 0 <= i < |ps| ==> ' ' !in ps[i]
    ensures DropSpaces(SplitPrefixes(t, ps)) == DropSpaces(t)
    decreases |ps|
  {
    if |ps| > 0 {
      SplitPrefixOnlyInsertsSpaces(t, ps[0], false);
      SplitPrefixesOnlyInsertSpaces(SplitPrefix(t, ps[0], false), ps[1..]);
    }
  }

  /** A prefix that does not occur in `t` leaves it unchanged. */
  lemma {:induction false} SplitPrefixAbsent(t: string, p: string, prevWord: bool)
    requires !Contains(t, p)
    ensures SplitPrefix(t, p, prevWord) == t
    decreases |t|
  {
    if |t| > 0 {
      assert !StartsWith(t, p) && !Contains(t[1..], p);
      SplitPrefixAbsent(t[1..], p, IsWordChar(t[0]));
      assert t == [t[0]] + t[1..];
    }
  }

  /** There is no `\b` inside a word: after a word character, a run of
      word characters is copied unchanged. */
  lemma {:induction false} WordRunKept(w: string, rest: string, p: string)
    requires forall i :: 0 <= i < |w| ==> IsWordChar(w[i])
    ensures SplitPrefix(w + rest, p, true) == w + SplitPrefix(rest, p, true)
    decreases |w|
  {
    if |w| == 0 {
      assert w + rest == rest;
    } else {
      AppendTail(w, rest);
      assert !Boundary(true, w[0]);
      assert SplitPrefix(w + rest, p, true) == [w[0]] + SplitPrefix(w[1..] + rest, p, true);
      WordRunKept(w[1..], rest, p);
      ConsAppend(w, SplitPrefix(rest, p, true));
    }
  }

  /** Text no longer than the prefix cannot hold a match. */
  lemma {:induction false} SplitPrefixShort(t: string, p: string, prevWord: bool)
    requires |t| <= |p|
    ensures SplitPrefix(t, p, prevWord) == t
    decreases |t|
  {
    if |t| > 0 {
      SplitPrefixShort(t[1..], p, IsWordChar(t[0]));
      assert t == [t[0]] + t[1..];
    }
  }

  /** Prefixes that do not occur leave the text unchanged. */
  lemma {:induction false} SplitPrefixesAbsent(t: string, ps: seq<string>)
    requires forall p :: p in ps ==> !Contains(t, p)
    ensures SplitPrefixes(t, ps) == t
    decreases |ps|
  {
    if |ps| > 0 {
      SplitPrefixAbsent(t, ps[0], false);
      SplitPrefixesAbsent(t, ps[1..]);
    }
  }

  /** `p` has a character that `t` lacks, so `p` cannot occur in `t`. */
  predicate MissingChar(t: string, p: string) {
    exists c :: c in p && c !in t
  }

  /** Prefixes each missing a character of `t` leave it unchanged. */
  lemma {:induction false} SplitPrefixesMissing(t: string, ps: seq<string>)
    requires forall p :: p in ps ==> MissingChar(t, p)
    ensures SplitPrefixes(t, ps) == t
    decreases |ps|
  {
    if |ps| > 0 {
      assert ps[0] in ps;
      var c :| c in ps[0] && c !in t;
      var j :| 0 <= j < |ps[0]| && ps[0][j] == c;
      AbsentByChar(t, ps[0], j);
      SplitPrefixAbsent(t, ps[0], false);
      assert forall p :: p in ps[1..] ==> p in ps;
      SplitPrefixesMissing(t, ps[1..]);
    }
  }

  /** Running the passes of `a + b` is running those of `a`, then `b`. */
  lemma {:induction false} SplitPrefixesAppend(t: string, a: seq<string>, b: seq<string>)
    ensures SplitPrefixes(t, a + b) == SplitPrefixes(SplitPrefixes(t, a), b)
    decreases |a|
  {
    if |a| == 0 {
      assert a + b == b;
    } else {
      AppendTail(a, b);
      SplitPrefixesAppend(SplitPrefix(t, a[0], false), a[1..], b);
    }
  }

  /** Text without `KM` passes the kilometre rewrite unchanged. */
  lemma {:induction false} NormalizeKmAbsent(t: string, prevWord: bool)
    requires !Contains(t, "KM")
    ensures NormalizeKm(t, prevWord) == t
    decreases |t|
  {
    if |t| > 0 {
      assert !StartsWith(t, "KM") && !Contains(t[1..], "KM");
      NormalizeKmAbsent(t[1..], IsWordChar(t[0]));
      assert t == [t[0]] + t[1..];
    }
  }

  /** Every ` - NN/UF` fragment contains a slash. */
  lemma CodeBlockHasSlash(t: string)
    requires CodeBlockEnd(t).Some?
    ensures '/' in t
  {
    var a := SkipSpaces(t, 0);
    var b := SkipSpaces(t, a + 1);
    var c := SkipSpaces(t, b + 2);
    assert t[c] == '/';
  }

  lemma NoSlashNoBlock(t: string)
    requires '/' !in t
    ensures CodeBlockEnd(t).None?
  {
    if CodeBlockEnd(t).Some? {
      CodeBlockHasSlash(t);
      assert false;
    }
  }

  /** Text without a slash passes the code-block removal unchanged. */
  lemma {:induction false} RemoveCodeBlocksAbsent(t: string)
    requires '/' !in t
    ensures RemoveCodeBlocks(t) == t
    decreases |t|
  {
    if |t| > 0 {
      NoSlashNoBlock(t);
      var tail := t[1..];
      assert RemoveCodeBlocks(t) == [t[0]] + RemoveCodeBlocks(tail);
      assert '/' !in tail;
      RemoveCodeBlocksAbsent(tail);
      assert t == [t[0]] + tail;
    }
  }

  /** Text before the first `C` holds no CEP match, so the search skips it. */
  lemma {:induction false} FindCepSkips(t: string, i: nat, j: nat)
    requires i <= j <= |t|
    requires forall k :: i <= k < j ==> t[k] != 'C'
    ensures FindCep(t, i) == FindCep(t, j)
    decreases j - i
  {
    if i < j {
      if i + 3 <= |t| {
        assert t[i..i + 3][0] == t[i];
      }
      assert CepAt(t, i).None?;
      FindCepSkips(t, i + 1, j);
    }
  }

  /** A leading piece without `-` is copied by the ` - ` replacement. */
  lemma {:induction false} ReplaceDashesKeeps(a: string, b: string)
    requires '-' !in a && (|b| > 0 ==> b[0] != '-')
    ensures ReplaceDashes(a + b) == a + ReplaceDashes(b)
    decreases |a|
  {
    if |a| == 0 {
      assert a + b == b;
    } else {
      AppendTail(a, b);
      NoDashAtStart(a, b);
      assert ReplaceDashes(a + b) == [a[0]] + ReplaceDashes(a[1..] + b);
      assert '-' !in a[1..];
      ReplaceDashesKeeps(a[1..], b);
      ConsAppend(a, ReplaceDashes(b));
    }
  }

  lemma NoDashAtStart(a: string, b: string)
    requires |a| > 0 && '-' !in a && (|b| > 0 ==> b[0] != '-')
    ensures !(3 <= |a + b| && (a + b)[..3] == " - ")
  {
    var t := a + b;
    if 3 <= |t| {
      assert t[1] != '-' by {
        if |a| >= 2 {
          assert t[1] == a[1];
        } else {
          assert t[1] == b[0];
        }
      }
      assert t[..3][1] == t[1];
    }
  }

  /** A leading piece without a comma that does not end in whitespace is
      copied by the comma rewrite. */
  lemma {:induction false} SpaceCommasKeeps(a: string, b: string)
    requires ',' !in a && (|a| > 0 ==> !IsSpace(a[|a| - 1]))
    ensures SpaceCommas(a + b) == a + SpaceCommas(b)
    decreases |a|
  {
    if |a| == 0 {
      assert a + b == b;
    } else {
      AppendTail(a, b);
      NoCommaAtStart(a, b);
      assert SpaceCommas(a + b) == [a[0]] + SpaceCommas(a[1..] + b);
      assert ',' !in a[1..];
      SpaceCommasKeeps(a[1..], b);
      ConsAppend(a, SpaceCommas(b));
    }
  }

  lemma NoCommaAtStart(a: string, b: string)
    requires |a| > 0 && ',' !in a && !IsSpace(a[|a| - 1])
    ensures CommaEnd(a + b).None?
  {
    var t := a + b;
    var s := SkipSpaces(t, 0);
    assert t[|a| - 1] == a[|a| - 1];
    assert s < |a|;
    assert t[s] == a[s];
  }

  /** Collapsing whitespace changes nothing once no run is left; with the
      postcondition of `CollapseSpaces` this makes it idempotent. */
  lemma {:induction false} CollapseSpacesKeeps(t: string)
    requires NoDoubleSpace(t)
    ensures CollapseSpaces(t) == t
    decreases |t|
  {
    if |t| > 0 {
      assert SkipSpaces(t, 0) <= 1 by {
        if |t| >= 2 && IsSpace(t[0]) {
          assert !IsSpace(t[1]);
        }
      }
      SliceNoDoubleSpace(t, 1, |t|);
      CollapseSpacesKeeps(t[1..]);
      assert t == [t[0]] + t[1..];
    }
  }

  lemma CollapseSpacesIdempotent(t: string)
    ensures CollapseSpaces(CollapseSpaces(t)) == CollapseSpaces(t)
  {
    CollapseSpacesKeeps(CollapseSpaces(t));
  }

  // ---------------------------------------------------------------------------
  // The whole normalizer

  /** mapa.py:145-170. An empty address normalizes to `("", None)`;
      otherwise the base has no separator at either end and no doubled
      whitespace, and a CEP, when returned, has the captured shape. */
  function NormalizeForGeocode(raw: string): (r: Normalized)
    ensures raw == "" ==> r == Normalized("", None)
    ensures |r.base| > 0 ==> r.base[0] !in EdgeJunk && r.base[|r.base| - 1] !in EdgeJunk
    ensures NoDoubleSpace(r.base)
    ensures r.cep.Some? ==> IsCepText(r.cep.value)
  {
    if raw == "" then Normalized("", None)
    else
      var t := Strip(Upper(raw));
      var t := SplitPrefixes(t, Prefixes);
      var t := NormalizeKm(t, false);
      var t := RemoveCodeBlocks(t);
      var (t, cep) := ExtractCep(t);
      Normalized(Cleanup(t), cep)
  }
}
