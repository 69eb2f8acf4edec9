/** Selecting establishments by activity code (filtra_por_cnae.py): the
    seven-digit code extractor, the normalisation of the requested codes,
    the required-column check, the principal/secondary match, the match tag
    and the output order. */
module Cnae {
  import opened Basics
  import opened Text
  import opened Seqs

  // ---------------------------------------------------------------------------
  // extrai_7digs (lines 23-26)

  predicate IsCode(c: string) {
    |c| == 7 && AllDigits(c)
  }

  /** `re.findall(r"\d{7}", t)`: scan left to right; where seven digits
      start, take them and continue after them, otherwise move on by one. */
  function FindCodes(t: string): (r: seq<string>)
    ensures forall i :: 0 <= i < |r| ==> IsCode(r[i])
    decreases |t|
  {
    if |t| < 7 then []
    else if AllDigits(t[..7]) then [t[..7]] + FindCodes(t[7..])
    else FindCodes(t[1..])
  }

  /** `extrai_7digs`: the set of codes found; empty text gives none. */
  function Extract7(t: string): (r: set<string>)
    ensures t == "" ==> r == {}
    ensures forall c :: c in r ==> IsCode(c)
  {
    if t == "" then {} else set c | c in FindCodes(t)
  }

  /** Every code found occurs in the text. */
  lemma {:induction false} FindCodesOccur(t: string)
    ensures forall c :: c in FindCodes(t) ==> Contains(t, c)
    decreases |t|
  {
    if |t| >= 7 {
      if AllDigits(t[..7]) {
        FindCodesOccur(t[7..]);
        ContainsAt(t, t[..7], 0);
        forall c | c in FindCodes(t[7..]) ensures Contains(t, c) {
          SuffixContains(t, 7, c);
        }
      } else {
        FindCodesOccur(t[1..]);
        forall c | c in FindCodes(t[1..]) ensures Contains(t, c) {
          SuffixContains(t, 1, c);
        }
      }
    }
  }

  lemma {:induction false} SuffixContains(t: string, k: nat, c: string)
    requires k <= |t| && Contains(t[k..], c)
    ensures Contains(t, c)
    decreases k
  {
    if k == 0 {
      assert t[0..] == t;
    } else {
      assert t[1..][k - 1..] == t[k..];
      SuffixContains(t[1..], k - 1, c);
    }
  }

  /** The codes of a digit run are its consecutive seven-digit blocks from
      the left, without overlap: there are `|d| / 7` of them and together
      they spell the run up to its last incomplete block. */
  lemma {:induction false} FindCodesOfRun(d: string)
    requires AllDigits(d)
    ensures |FindCodes(d)| == |d| / 7
    ensures Flatten(FindCodes(d)) == d[..|d| / 7 * 7]
    decreases |d|
  {
    if |d| >= 7 {
      assert AllDigits(d[..7]);
      assert AllDigits(d[7..]) by {
        assert forall i :: 0 <= i < |d| - 7 ==> d[7..][i] == d[i + 7];
      }
      FindCodesOfRun(d[7..]);
      assert (|d| - 7) / 7 * 7 + 7 == |d| / 7 * 7;
      assert d[..|d| / 7 * 7] == d[..7] + d[7..][..(|d| - 7) / 7 * 7];
    } else {
      assert d[..0] == [];
    }
  }

  /** A fourteen-digit run yields two codes. */
  lemma FourteenDigitsTwoCodes(d: string)
    requires |d| == 14 && AllDigits(d)
    ensures FindCodes(d) == [d[..7], d[7..]]
  {
    FindCodesOfRun(d);
    var r := FindCodes(d);
    assert |r| == 2;
    assert r[1..][1..] == [];
    assert Flatten(r[1..]) == r[1] + "";
    assert Flatten(r) == r[0] + r[1];
    assert |r[0]| == 7;
    assert d[..14] == d;
    assert r[0] == (r[0] + r[1])[..7];
    assert r[1] == (r[0] + r[1])[7..];
  }

  /** A non-digit separates: the codes of `a`, a non-digit and `b` are the
      codes of `a` followed by the codes of `b`; so codes listed with any
      separator are found one by one. */
  lemma {:induction false} FindCodesSeparated(a: string, c: char, b: string)
    requires !IsDigit(c)
    ensures FindCodes(a + [c] + b) == FindCodes(a) + FindCodes(b)
    decreases |a|
  {
    var t := a + [c] + b;
    if |a| >= 7 {
      assert t[..7] == a[..7];
      if AllDigits(a[..7]) {
        assert t[7..] == a[7..] + [c] + b;
        FindCodesSeparated(a[7..], c, b);
      } else {
        assert t[1..] == a[1..] + [c] + b;
        FindCodesSeparated(a[1..], c, b);
      }
    } else if |a| > 0 {
      assert |t| >= 7 ==> !AllDigits(t[..7]) by {
        if |t| >= 7 { assert t[..7][|a|] == c; }
      }
      assert t[1..] == a[1..] + [c] + b;
      FindCodesSeparated(a[1..], c, b);
      assert FindCodes(a) == [] && FindCodes(a[1..]) == [];
    } else {
      assert |t| >= 7 ==> !AllDigits(t[..7]) by {
        if |t| >= 7 { assert t[..7][0] == c; }
      }
      assert t[1..] == b;
      assert |t| < 7 ==> |b| < 7;
    }
  }

  // ---------------------------------------------------------------------------
  // Requested codes (lines 35-42)

  /** The separator class `[,\s]`. */
  predicate IsSep(c: char) {
    c == ',' || IsSpace(c)
  }

  predicate NoSep(s: string) {
    forall i :: 0 <= i < |s| ==> !IsSep(s[i])
  }

  /** The first index at or after `i` holding a separator, or the end. */
  function RunEnd(t: string, i: nat): (j: nat)
    requires i <= |t|
    ensures i <= j <= |t|
    ensures forall k :: i <= k < j ==> !IsSep(t[k])
    ensures j == |t| || IsSep(t[j])
    decreases |t| - i
  {
    if i < |t| && !IsSep(t[i]) then RunEnd(t, i + 1) else i
  }

  /** The non-empty pieces of `re.split(r"[,\s]+", t)`: the maximal runs of
      non-separator characters. The empty pieces `re.split` also yields at
      a leading or trailing separator are the ones line 39 drops. */
  function Tokens(t: string): (r: seq<string>)
    ensures forall i :: 0 <= i < |r| ==> |r[i]| > 0 && NoSep(r[i])
    decreases |t|
  {
    if |t| == 0 then []
    else if IsSep(t[0]) then Tokens(t[1..])
    else
      var n := RunEnd(t, 0);
      assert NoSep(t[..n]) by {
        assert forall k :: 0 <= k < n ==> t[..n][k] == t[k];
      }
      [t[..n]] + Tokens(t[n..])
  }

  /** Joining with commas. */
  function JoinComma(ws: seq<string>): string {
    if |ws| == 0 then "" else if |ws| == 1 then ws[0] else ws[0] + "," + JoinComma(ws[1..])
  }

  /** Splitting undoes joining: words without separators joined by commas
      come back as the same words. */
  lemma {:induction false} TokensJoinComma(ws: seq<string>)
    requires forall i :: 0 <= i < |ws| ==> |ws[i]| > 0 && NoSep(ws[i])
    ensures Tokens(JoinComma(ws)) == ws
    decreases |ws|
  {
    if |ws| == 1 {
      TokensOfWord(ws[0], "");
      assert ws[0] + "" == ws[0];
    } else if |ws| > 1 {
      var rest := JoinComma(ws[1..]);
      TokensJoinComma(ws[1..]);
      TokensOfWord(ws[0], "," + rest);
      assert ("," + rest)[1..] == rest;
      assert JoinComma(ws) == ws[0] + ("," + rest);
    }
  }

  /** A word followed by a separator-led text is its first token. */
  lemma TokensOfWord(w: string, rest: string)
    requires |w| > 0 && NoSep(w)
    requires rest == "" || IsSep(rest[0])
    ensures Tokens(w + rest) == [w] + (if rest == "" then [] else Tokens(rest[1..]))
  {
    var t := w + rest;
    RunEndOfWord(w, rest, 0);
    assert t[..|w|] == w && t[|w|..] == rest;
  }

  lemma {:induction false} RunEndOfWord(w: string, rest: string, i: nat)
    requires i <= |w| && NoSep(w)
    requires rest == "" || IsSep(rest[0])
    ensures RunEnd(w + rest, i) == |w|
    decreases |w| - i
  {
    if i < |w| {
      assert (w + rest)[i] == w[i];
      RunEndOfWord(w, rest, i + 1);
    } else {
      assert i < |w + rest| ==> (w + rest)[i] == rest[0];
    }
  }

  function AllTokens(items: seq<string>): seq<string> {
    if |items| == 0 then [] else Tokens(Strip(items[0])) + AllTokens(items[1..])
  }

  /** The requested code set of lines 36-40: every token reduced to its
      digits, kept when seven remain. */
  function CodeSet(items: seq<string>): (r: set<string>)
    ensures forall c :: c in r ==> IsCode(c)
    ensures forall t :: t in AllTokens(items) && |Digits(t)| == 7 ==> Digits(t) in r
  {
    set t | t in AllTokens(items) && |Digits(t)| == 7 :: Digits(t)
  }

  lemma CodeSetEmpty(items: seq<string>)
    ensures CodeSet(items) != {} <==> exists t :: t in AllTokens(items) && |Digits(t)| == 7
  {
    if CodeSet(items) != {} {
      var c :| c in CodeSet(items);
      var t :| t in AllTokens(items) && |Digits(t)| == 7 && Digits(t) == c;
      assert t in AllTokens(items) && |Digits(t)| == 7;
    }
  }

  /** Lines 36-42: the code set, or the abort when it is empty. */
  function ParseCnaes(items: seq<string>): (r: Result<set<string>>)
    ensures r.Ok? <==> exists t :: t in AllTokens(items) && |Digits(t)| == 7
    ensures r.Ok? ==> r.value != {} && forall c :: c in r.value ==> IsCode(c)
  {
    var cs := CodeSet(items);
    CodeSetEmpty(items);
    if cs == {} then Err("Nenhum CNAE válido (7 dígitos) informado.") else Ok(cs)
  }

  /** A code written with punctuation, such as `6201-5/01`, is requested as
      its digits. */
  lemma PunctuatedCodeRequested(items: seq<string>, t: string)
    requires t in AllTokens(items) && |Digits(t)| == 7
    ensures ParseCnaes(items).Ok? && Digits(t) in ParseCnaes(items).value
  {
  }

  // ---------------------------------------------------------------------------
  // Required columns (lines 50-53)

  const Required: set<string> := {"nome", "cnpj", "endereco", "cnae_fiscal_principal", "cnaes_secundarios", "municipio", "uf"}

  datatype ColumnCheck = ColumnsOk | MissingColumns(missing: set<string>)

  function CheckColumns(cols: set<string>): (r: ColumnCheck)
    ensures r.ColumnsOk? <==> Required <= cols
    ensures r.MissingColumns? ==> r.missing != {} && r.missing <= Required
                                  && (forall c :: c in Required ==> (c in r.missing <==> c !in cols))
  {
    if Required <= cols then ColumnsOk
    else
      var c :| c in Required && c !in cols;
      assert c in Required - cols;
      MissingColumns(Required - cols)
  }

  // ---------------------------------------------------------------------------
  // Matching, tagging and order (lines 55-74)

  /** A row of the input table (the output of the city filter). */
  datatype Row = Row(
    nome: string,
    cnpj: string,
    endereco: string,
    principal: string,
    secundarios: string,
    municipio: string,
    uf: string)

  /** A row of the output, with its `match_por` tag. */
  datatype Tagged = Tagged(row: Row, matchPor: string)

  predicate MatchPrincipal(r: Row, cnaes: set<string>) {
    r.principal in cnaes
  }

  predicate MatchSec(r: Row, cnaes: set<string>) {
    Extract7(r.secundarios) * cnaes != {}
  }

  /** `tag` (lines 61-64), for a selected row. */
  function Tag(r: Row, cnaes: set<string>): (t: string)
    ensures t == "ambos" <==> MatchPrincipal(r, cnaes) && MatchSec(r, cnaes)
    ensures t == "principal" <==> MatchPrincipal(r, cnaes) && !MatchSec(r, cnaes)
    ensures t == "secundario" <==> !MatchPrincipal(r, cnaes)
  {
    if MatchPrincipal(r, cnaes) && MatchSec(r, cnaes) then "ambos"
    else if MatchPrincipal(r, cnaes) then "principal"
    else "secundario"
  }

  function Matches(cnaes: set<string>): Row -> bool {
    (r: Row) => MatchPrincipal(r, cnaes) || MatchSec(r, cnaes)
  }

  function TagWith(cnaes: set<string>): Row -> Tagged {
    (r: Row) => Tagged(r, Tag(r, cnaes))
  }

  function OutKey(t: Tagged): SortKey {
    [Str(t.row.nome), Str(t.row.cnpj)]
  }

  /** The written table: the selected rows, tagged, sorted by name and
      CNPJ. */
  function SelectByCnae(rows: seq<Row>, cnaes: set<string>): (out: seq<Tagged>)
    ensures SortedBy(out, OutKey)
    ensures multiset(out) == multiset(MapSeq(Filter(rows, Matches(cnaes)), TagWith(cnaes)))
  {
    SortBy(MapSeq(Filter(rows, Matches(cnaes)), TagWith(cnaes)), OutKey)
  }

  /** A row is written exactly when its principal code is requested or one
      of its secondary codes is, and it is written with its tag. */
  lemma SelectByCnaeIff(rows: seq<Row>, cnaes: set<string>, r: Row)
    ensures Tagged(r, Tag(r, cnaes)) in SelectByCnae(rows, cnaes) <==>
            r in rows && (r.principal in cnaes || Extract7(r.secundarios) * cnaes != {})
    ensures forall t :: t in SelectByCnae(rows, cnaes) ==> t.matchPor == Tag(t.row, cnaes) && t.row in rows
  {
    var mid := MapSeq(Filter(rows, Matches(cnaes)), TagWith(cnaes));
    var out := SelectByCnae(rows, cnaes);
    MapFilterMembership(rows, Matches(cnaes), TagWith(cnaes), r);
    assert forall t :: t in out <==> t in mid by {
      assert forall t :: t in out <==> t in multiset(out);
    }
  }

  /** The principal code is compared as written: with any non-digit in it,
      it never matches, since every requested code is seven digits. */
  lemma PrincipalNotStripped(r: Row, cnaes: set<string>, i: nat)
    requires forall c :: c in cnaes ==> IsCode(c)
    requires i < |r.principal| && !IsDigit(r.principal[i])
    ensures !MatchPrincipal(r, cnaes)
  {
  }

  /** Secondary codes written with separators are matched one by one. */
  lemma SecondaryListMatches(a: string, b: string, cnaes: set<string>)
    requires IsCode(a) && IsCode(b) && b in cnaes
    ensures MatchSec(Row("", "", "", "", a + "," + b, "", ""), cnaes)
  {
    FindCodesSeparated(a, ',', b);
    assert a + "," + b == a + [','] + b;
    assert FindCodes(b) == [b] by {
      assert b[..7] == b && b[7..] == [];
    }
    var t := a + "," + b;
    assert b in FindCodes(t);
    assert b in Extract7(t) * cnaes;
  }
}
