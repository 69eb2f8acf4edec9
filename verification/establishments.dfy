/** Filtering the establishment files by city and active status
    (filtro_cidades_ativas.py): `norm_txt`, `cnpj_full`, `monta_endereco`,
    the layout choice of `detect_cols_est`, the row predicate of `main` and
    the CNPJ dedupe across chunks. A chunk is a sequence of rows; reading and
    appending CSV files is outside the model. */
module Establishments {
  import opened Basics
  import opened Text
  import opened Seqs

  // ---------------------------------------------------------------------------
  // norm_txt (lines 16-21)

  /** What `normalize("NFKD", s).encode("ascii", "ignore")` must do for the
      rest of `norm_txt`: produce ASCII and leave ASCII text alone. */
  ghost predicate IsFolding(f: string -> string) {
    forall s :: AllAscii(f(s)) && (AllAscii(s) ==> f(s) == s)
  }

  type Folding = f: string -> string | IsFolding(f) witness Latin1Fold

  /** The NFKD decomposition of one Latin-1 character with its non-ASCII
      part dropped; characters above U+00FF are dropped whole. */
  function FoldChar(c: char): (r: string)
    ensures AllAscii(r)
    ensures IsAscii(c) ==> r == [c]
  {
    if IsAscii(c) then [c]
    else if c == '\U{A0}' || c == '\U{A8}' || c == '\U{AF}' || c == '\U{B4}' || c == '\U{B8}' then " "
    else if c == '\U{AA}' then "a"
    else if c == '\U{BA}' then "o"
    else if c == '\U{B2}' then "2"
    else if c == '\U{B3}' then "3"
    else if c == '\U{B9}' then "1"
    else if c == '\U{BC}' then "14"
    else if c == '\U{BD}' then "12"
    else if c == '\U{BE}' then "34"
    else if '\U{C0}' <= c <= '\U{C5}' then "A"
    else if c == '\U{C7}' then "C"
    else if '\U{C8}' <= c <= '\U{CB}' then "E"
    else if '\U{CC}' <= c <= '\U{CF}' then "I"
    else if c == '\U{D1}' then "N"
    else if '\U{D2}' <= c <= '\U{D6}' then "O"
    else if '\U{D9}' <= c <= '\U{DC}' then "U"
    else if c == '\U{DD}' then "Y"
    else if '\U{E0}' <= c <= '\U{E5}' then "a"
    else if c == '\U{E7}' then "c"
    else if '\U{E8}' <= c <= '\U{EB}' then "e"
    else if '\U{EC}' <= c <= '\U{EF}' then "i"
    else if c == '\U{F1}' then "n"
    else if '\U{F2}' <= c <= '\U{F6}' then "o"
    else if '\U{F9}' <= c <= '\U{FC}' then "u"
    else if c == '\U{FD}' || c == '\U{FF}' then "y"
    else ""
  }

  function Latin1Fold(s: string): (r: string)
    ensures AllAscii(r)
    ensures AllAscii(s) ==> r == s
  {
    if |s| == 0 then ""
    else
      var h := FoldChar(s[0]);
      var t := Latin1Fold(s[1..]);
      AllAsciiConcat(h, t);
      assert AllAscii(s) ==> AllAscii(s[1..]) && h == [s[0]] by {
        assert forall i :: 0 <= i < |s| - 1 ==> s[1..][i] == s[i + 1];
      }
      assert s == [s[0]] + s[1..];
      h + t
  }

  lemma AllAsciiConcat(a: string, b: string)
    requires AllAscii(a) && AllAscii(b)
    ensures AllAscii(a + b)
  {
    assert forall i :: 0 <= i < |a + b| ==> (a + b)[i] == if i < |a| then a[i] else b[i - |a|];
  }

  /** `re.sub(r"\s+", " ", s)`: every run of whitespace becomes one space. */
  function CollapseRuns(t: string): (r: string)
    ensures NoDoubleSpace(r)
    ensures forall i :: 0 <= i < |r| && IsSpace(r[i]) ==> r[i] == ' '
    ensures AllAscii(t) ==> AllAscii(r)
    ensures |t| > 0 ==> |r| > 0 && (IsSpace(r[0]) <==> IsSpace(t[0]))
    decreases |t|
  {
    if |t| == 0 then ""
    else if IsSpace(t[0]) then
      var rest := StripLeftSpace(t);
      assert AllAscii(t) ==> AllAscii(rest) by {
        assert forall i :: 0 <= i < |rest| ==> rest[i] == t[|t| - |rest| + i];
      }
      " " + CollapseRuns(rest)
    else
      [t[0]] + CollapseRuns(t[1..])
  }

  /** Text whose only whitespace is single spaces is left alone. */
  lemma {:induction false} CollapseRunsKeeps(t: string)
    requires NoDoubleSpace(t)
    requires forall i :: 0 <= i < |t| && IsSpace(t[i]) ==> t[i] == ' '
    ensures CollapseRuns(t) == t
    decreases |t|
  {
    if |t| > 0 {
      assert NoDoubleSpace(t[1..]) by {
        assert forall i :: 0 <= i < |t| - 1 ==> t[1..][i] == t[i + 1];
      }
      if IsSpace(t[0]) {
        assert StripLeftSpace(t) == t[1..] by {
          assert |t| > 1 ==> !IsSpace(t[1..][0]);
        }
      }
      CollapseRunsKeeps(t[1..]);
      assert t == [t[0]] + t[1..];
    }
  }

  /** The characters of normalized text: ASCII, no lower-case letter, no
      whitespace but the plain space, and never two spaces in a row. */
  predicate Shaped(r: string) {
    && AllAscii(r)
    && (forall i :: 0 <= i < |r| ==> !IsAsciiLower(r[i]))
    && NoDoubleSpace(r)
    && (forall i :: 0 <= i < |r| && IsSpace(r[i]) ==> r[i] == ' ')
  }

  /** The shape `norm_txt` promises, stated once for every string. */
  predicate Normalized(r: string) {
    Shaped(r) && (|r| > 0 ==> !IsSpace(r[0]) && !IsSpace(r[|r| - 1]))
  }

  /** Any slice of shaped text is shaped. */
  lemma ShapedSlice(u: string, r: string, k: nat)
    requires Shaped(u) && SliceAt(u, r, k)
    ensures Shaped(r)
  {
    SliceNoDoubleSpace(u, k, k + |r|);
    assert forall i :: 0 <= i < |r| ==> r[i] == u[k + i];
  }

  /** Stripping shaped text gives normalized text. */
  lemma StripShape(u: string)
    requires Shaped(u)
    ensures Normalized(Strip(u))
  {
    var r := Strip(u);
    var k: nat :| SliceAt(u, r, k);
    ShapedSlice(u, r, k);
  }

  /** `norm_txt` (lines 16-21) with the accent-stripping step as a
      parameter. An absent value arrives as `""`. */
  function NormTxt(fold: Folding, x: string): (r: string)
    ensures Normalized(r)
  {
    var a := fold(Strip(x));
    var c := CollapseRuns(a);
    UpperAscii(c);
    var u := Upper(c);
    StripShape(u);
    Strip(u)
  }

  /** Normalizing twice changes nothing: the normalized text is already
      stripped, ASCII, collapsed and upper-case. */
  lemma NormTxtIdempotent(fold: Folding, x: string)
    ensures NormTxt(fold, NormTxt(fold, x)) == NormTxt(fold, x)
  {
    var r := NormTxt(fold, x);
    NormalizedIsFixed(fold, r);
  }

  /** Each step of `norm_txt` leaves text of the normalized shape alone. */
  lemma NormalizedIsFixed(fold: Folding, r: string)
    requires Normalized(r)
    ensures NormTxt(fold, r) == r
  {
    StripOfStripped(r);
    FoldFixed(fold, r);
    CollapseRunsKeeps(r);
    UpperOfNormalized(r);
  }

  lemma FoldFixed(fold: Folding, r: string)
    requires AllAscii(r)
    ensures fold(r) == r
  {
  }

  lemma UpperOfNormalized(r: string)
    requires Normalized(r)
    ensures Upper(r) == r
  {
    UpperAscii(r);
    assert forall i :: 0 <= i < |r| ==> Upper(r)[i] == r[i];
  }

  // ---------------------------------------------------------------------------
  // cnpj_full (lines 33-34)

  /** The full CNPJ: root, order and check digits zero-filled to 8, 4 and 2
      characters and concatenated. */
  function CnpjFull(basico: string, ordem: string, dv: string): (r: string)
    ensures |basico| <= 8 && |ordem| <= 4 && |dv| <= 2 ==> |r| == 14
  {
    Zfill(basico, 8) + Zfill(ordem, 4) + Zfill(dv, 2)
  }

  /** For digit parts within their widths the result is fourteen digits and
      the three zero-filled parts can be read back at offsets 0, 8 and 12. */
  lemma CnpjFullParts(basico: string, ordem: string, dv: string)
    requires AllDigits(basico) && AllDigits(ordem) && AllDigits(dv)
    requires |basico| <= 8 && |ordem| <= 4 && |dv| <= 2
    ensures var c := CnpjFull(basico, ordem, dv);
            && AllDigits(c)
            && c[..8] == Zfill(basico, 8) && c[8..12] == Zfill(ordem, 4) && c[12..] == Zfill(dv, 2)
            && EndsWith(c[..8], basico) && EndsWith(c[8..12], ordem) && EndsWith(c[12..], dv)
  {
    ZfillDigits(basico, 8);
    ZfillDigits(ordem, 4);
    ZfillDigits(dv, 2);
    var c := CnpjFull(basico, ordem, dv);
    assert c[..8] == Zfill(basico, 8);
    assert c[8..12] == Zfill(ordem, 4);
    assert c[12..] == Zfill(dv, 2);
  }

  /** Splitting a fourteen-character CNPJ at 8 and 12 and joining it again
      gives it back. */
  lemma CnpjFullRoundTrip(c: string)
    requires |c| == 14
    ensures CnpjFull(c[..8], c[8..12], c[12..]) == c
  {
    assert c[..8] + c[8..12] + c[12..] == c;
  }

  /** Digit parts within their widths that give the same CNPJ are the same
      numbers: they agree once zero-filled. */
  lemma CnpjFullInjective(b1: string, o1: string, d1: string, b2: string, o2: string, d2: string)
    requires AllDigits(b1) && AllDigits(o1) && AllDigits(d1) && AllDigits(b2) && AllDigits(o2) && AllDigits(d2)
    requires |b1| <= 8 && |o1| <= 4 && |d1| <= 2 && |b2| <= 8 && |o2| <= 4 && |d2| <= 2
    requires CnpjFull(b1, o1, d1) == CnpjFull(b2, o2, d2)
    ensures Zfill(b1, 8) == Zfill(b2, 8) && Zfill(o1, 4) == Zfill(o2, 4) && Zfill(d1, 2) == Zfill(d2, 2)
  {
    CnpjFullParts(b1, o1, d1);
    CnpjFullParts(b2, o2, d2);
  }

  // ---------------------------------------------------------------------------
  // monta_endereco (lines 36-56)

  /** The address fields of a selected row, with `s()` already applied
      (absent cells are `""`), and the city and state typed by the user. */
  datatype AddressFields = AddressFields(
    tipo: string,
    logradouro: string,
    numero: string,
    complemento: string,
    bairro: string,
    municipioOut: string,
    municipio: string,
    ufOut: string,
    uf: string,
    cep: string)

  /** `a.strip() or b.strip()`. */
  function FirstNonBlank(a: string, b: string): (r: string)
    ensures r == Strip(a) || r == Strip(b)
    ensures r == "" <==> Strip(a) == "" && Strip(b) == ""
  {
    if Strip(a) != "" then Strip(a) else Strip(b)
  }

  /** The values `monta_endereco` works with after lines 37-45: stripped
      fields, the chosen city and state, and the digits of the CEP. */
  datatype Resolved = Resolved(
    tl: string, log: string, num: string, cpl: string, bai: string,
    mun: string, uf: string, cep: string)

  function Resolve(f: AddressFields): (v: Resolved)
    ensures AllDigits(v.cep)
  {
    Resolved(Strip(f.tipo), Strip(f.logradouro), Strip(f.numero), Strip(f.complemento),
             Strip(f.bairro), FirstNonBlank(f.municipioOut, f.municipio),
             FirstNonBlank(f.ufOut, f.uf), Digits(f.cep))
  }

  /** The postal-code text: an eight-digit CEP gets its hyphen. */
  function CepText(cep: string): (t: string)
    ensures |cep| > 0 ==> |t| > 0 && t[0] == 'C' && t[|t| - 1] == cep[|cep| - 1]
  {
    if |cep| == 8 then "CEP " + cep[..5] + "-" + cep[5..] else "CEP " + cep
  }

  function CepPiece(cep: string): string {
    " - " + CepText(cep)
  }

  /** A piece of `ped`, or nothing when its field is empty. */
  function Opt(present: bool, text: string): string {
    if present then text else ""
  }

  /** The pieces between the street type and the CEP, in append order. */
  function Middle(v: Resolved): string {
    Opt(v.log != "", v.log) + Opt(v.num != "", ", " + v.num)
    + Opt(v.cpl != "", " - " + v.cpl) + Opt(v.bai != "", " - " + v.bai)
    + Opt(v.mun != "", " - " + v.mun) + Opt(v.uf != "", "/" + v.uf)
  }

  /** `"".join(ped)`. */
  function Joined(v: Resolved): string {
    Opt(v.tl != "", v.tl + " ") + Middle(v) + Opt(v.cep != "", CepPiece(v.cep))
  }

  const AddressJunk: set<char> := {' ', '-', ','}

  /** Non-empty, and neither end is a character the address strips. */
  predicate JunkFreeEnds(s: string) {
    s != "" && s[0] !in AddressJunk && s[|s| - 1] !in AddressJunk
  }

  /** `monta_endereco`: the pieces joined, with spaces, hyphens and commas
      stripped from both ends. */
  function MontaEndereco(f: AddressFields): (r: string)
    ensures |r| > 0 ==> r[0] !in AddressJunk && r[|r| - 1] !in AddressJunk
  {
    StripChars(Joined(Resolve(f)), AddressJunk)
  }

  /** A row with no address field and no CEP digit gives the empty address. */
  lemma EmptyFieldsEmptyAddress(f: AddressFields)
    requires Strip(f.tipo) == "" && Strip(f.logradouro) == "" && Strip(f.numero) == ""
    requires Strip(f.complemento) == "" && Strip(f.bairro) == ""
    requires Strip(f.municipioOut) == "" && Strip(f.municipio) == ""
    requires Strip(f.ufOut) == "" && Strip(f.uf) == ""
    requires Digits(f.cep) == ""
    ensures MontaEndereco(f) == ""
  {
    var v := Resolve(f);
    assert Middle(v) == "";
    assert Joined(v) == "";
  }

  /** The address depends on the row only through the resolved values. */
  lemma SameResolvedSameAddress(f: AddressFields, g: AddressFields)
    requires Resolve(f) == Resolve(g)
    ensures MontaEndereco(f) == MontaEndereco(g)
  {
  }

  /** A non-blank typed city wins: the row's own `municipio` is then never
      looked at; a blank one falls back to the row's value, as if that had
      been typed. */
  lemma CityOverrideWins(f: AddressFields, other: string)
    ensures Strip(f.municipioOut) != "" ==>
              MontaEndereco(f.(municipio := other)) == MontaEndereco(f)
    ensures Strip(f.municipioOut) == "" ==>
              MontaEndereco(f) == MontaEndereco(f.(municipioOut := f.municipio))
  {
    if Strip(f.municipioOut) != "" {
      SameResolvedSameAddress(f.(municipio := other), f);
    } else {
      SameResolvedSameAddress(f, f.(municipioOut := f.municipio));
    }
  }

  /** The same for the state. */
  lemma StateOverrideWins(f: AddressFields, other: string)
    ensures Strip(f.ufOut) != "" ==>
              MontaEndereco(f.(uf := other)) == MontaEndereco(f)
    ensures Strip(f.ufOut) == "" ==>
              MontaEndereco(f) == MontaEndereco(f.(ufOut := f.uf))
  {
    if Strip(f.ufOut) != "" {
      SameResolvedSameAddress(f.(uf := other), f);
    } else {
      SameResolvedSameAddress(f, f.(ufOut := f.uf));
    }
  }

  /** Only the digits of the CEP matter: punctuation in it changes
      nothing. */
  lemma CepDigitsOnly(f: AddressFields)
    ensures MontaEndereco(f.(cep := Digits(f.cep))) == MontaEndereco(f)
  {
    DigitsOfDigits(Digits(f.cep));
    assert Resolve(f.(cep := Digits(f.cep))) == Resolve(f);
  }

  /** Stripping never cuts into a prefix whose first and last characters are
      kept. */
  lemma StripCharsKeepsPrefix(s: string, p: string, drop: set<char>)
    requires |p| > 0 && StartsWith(s, p) && p[0] !in drop && p[|p| - 1] !in drop
    ensures StartsWith(StripChars(s, drop), p)
  {
    var l := StripLeft(s, drop);
    assert l == s;
    var r := StripRight(l, drop);
    assert |r| >= |p|;
    assert r[..|p|] == s[..|p|];
  }

  /** Stripping never cuts into a suffix whose first and last characters are
      kept. */
  lemma StripCharsKeepsSuffix(s: string, p: string, drop: set<char>)
    requires |p| > 0 && EndsWith(s, p) && p[0] !in drop && p[|p| - 1] !in drop
    ensures EndsWith(StripChars(s, drop), p)
  {
    var l := StripLeft(s, drop);
    var k := |s| - |p|;
    assert s[k] == p[0];
    assert |l| >= |p|;
    assert l[|l| - |p|..] == s[k..];
    var r := StripRight(l, drop);
    assert l[|l| - 1] == p[|p| - 1];
    assert r == l;
  }

  /** The street type comes first: when it does not itself begin or end
      with a stripped character, the address starts with it. */
  lemma AddressStartsWithTipo(f: AddressFields)
    requires JunkFreeEnds(Strip(f.tipo))
    ensures StartsWith(MontaEndereco(f), Strip(f.tipo))
  {
    JoinedStartsWithTipo(Resolve(f));
  }

  lemma JoinedStartsWithTipo(v: Resolved)
    requires JunkFreeEnds(v.tl)
    ensures StartsWith(StripChars(Joined(v), AddressJunk), v.tl)
  {
    var tl := v.tl;
    var j := Joined(v);
    assert Opt(tl != "", tl + " ") == tl + " ";
    PrefixOfConcat(tl + " ", Middle(v), Opt(v.cep != "", CepPiece(v.cep)), tl);
    StripCharsKeepsPrefix(j, tl, AddressJunk);
  }

  lemma PrefixOfConcat(a: string, b: string, c: string, p: string)
    requires StartsWith(a, p)
    ensures StartsWith(a + b + c, p)
  {
    assert (a + b + c)[..|p|] == a[..|p|];
  }

  /** The CEP comes last: an eight-digit CEP ends the address as
      `CEP NNNNN-NNN`, any other non-empty digit string as `CEP` and the
      digits. */
  lemma AddressEndsWithCep(f: AddressFields)
    requires Digits(f.cep) != ""
    ensures var cep := Digits(f.cep);
            EndsWith(MontaEndereco(f), if |cep| == 8 then "CEP " + cep[..5] + "-" + cep[5..] else "CEP " + cep)
  {
    JoinedEndsWithCep(Resolve(f));
  }

  lemma JoinedEndsWithCep(v: Resolved)
    requires v.cep != "" && AllDigits(v.cep)
    ensures EndsWith(StripChars(Joined(v), AddressJunk), CepText(v.cep))
  {
    var tail := CepText(v.cep);
    assert IsDigit(v.cep[|v.cep| - 1]);
    var head := Opt(v.tl != "", v.tl + " ") + Middle(v);
    var j := Joined(v);
    assert j == head + (" - " + tail);
    SuffixOfConcat(head, " - ", tail);
    StripCharsKeepsSuffix(j, tail, AddressJunk);
  }

  lemma SuffixOfConcat(a: string, b: string, c: string)
    ensures EndsWith(a + (b + c), c)
  {
    var s := a + (b + c);
    assert s[|s| - |c|..] == c;
  }

  // ---------------------------------------------------------------------------
  // detect_cols_est (lines 58-87)

  const Cols30: seq<string> := [
    "cnpj_basico", "cnpj_ordem", "cnpj_dv", "identificador_matriz_filial",
    "nome_fantasia", "situacao_cadastral", "data_situacao_cadastral",
    "motivo_situacao_cadastral", "nome_cidade_exterior", "pais",
    "data_inicio_atividade", "cnae_fiscal_principal", "cnaes_secundarios",
    "tipo_logradouro", "logradouro", "numero", "complemento", "bairro",
    "cep", "uf", "codigo_municipio", "municipio",
    "ddd_1", "telefone_1", "ddd_2", "telefone_2",
    "fax", "email", "situacao_especial", "data_situacao_especial"]

  const Cols31: seq<string> := [
    "cnpj_basico", "cnpj_ordem", "cnpj_dv", "identificador_matriz_filial",
    "nome_fantasia", "situacao_cadastral", "data_situacao_cadastral",
    "motivo_situacao_cadastral", "nome_cidade_exterior", "pais",
    "data_inicio_atividade", "cnae_fiscal_principal", "cnaes_secundarios",
    "tipo_logradouro", "logradouro", "numero", "complemento", "bairro",
    "cep", "uf", "codigo_municipio", "municipio",
    "ddd_1", "telefone_1", "ddd_2", "telefone_2",
    "ddd_fax", "fax", "email", "situacao_especial", "data_situacao_especial"]

  const LayoutError: string := "Layout ESTABELECIMENTOS inesperado: "

  /** The column names for a file whose first row has `n` fields; the
      error names the count it found. */
  function DetectColsEst(n: int): (r: Result<seq<string>>)
    ensures r.Ok? <==> n == 30 || n == 31
    ensures r.Ok? ==> |r.value| == n
    ensures r.Err? ==> |r.message| > |LayoutError| + |IntText(n)|
                       && r.message[..|LayoutError|] == LayoutError
                       && r.message[|LayoutError|..|LayoutError| + |IntText(n)|] == IntText(n)
  {
    if n == 30 then Ok(Cols30)
    else if n == 31 then Ok(Cols31)
    else Err(LayoutError + IntText(n) + " colunas (esperado 30/31).")
  }

  /** The two layouts differ only by `ddd_fax`, inserted before `fax`. */
  lemma LayoutsDifferByFax()
    ensures Cols31 == Cols30[..26] + ["ddd_fax"] + Cols30[26..]
    ensures Cols30[26] == "fax" && Cols31[26] == "ddd_fax"
  {
  }

  // ---------------------------------------------------------------------------
  // Rows, the row predicate and the output rows (lines 220-246)

  /** The used columns of one establishment row, as read (`dtype=str`,
      empty cells as `""`). */
  datatype EstRow = EstRow(
    cnpjBasico: string,
    cnpjOrdem: string,
    cnpjDv: string,
    nomeFantasia: string,
    situacao: string,
    cnaePrincipal: string,
    cnaesSecundarios: string,
    tipoLogradouro: string,
    logradouro: string,
    numero: string,
    complemento: string,
    bairro: string,
    cep: string,
    uf: string,
    codigoMunicipio: string,
    municipio: string)

  /** The columns written: `nome, cnpj, endereco, cnae_fiscal_principal,
      cnaes_secundarios, municipio, uf`. */
  datatype OutRow = OutRow(
    nome: string,
    cnpj: string,
    endereco: string,
    cnaePrincipal: string,
    cnaesSecundarios: string,
    municipio: string,
    uf: string)

  /** The situation codes meaning ATIVA. */
  const Active: set<string> := {"02", "2"}

  /** The mask of lines 220-224. */
  predicate KeepRow(r: EstRow, ufUser: string, cods: set<string>) {
    r.uf == ufUser && r.codigoMunicipio in cods && r.situacao in Active
  }

  /** `code_to_city_display.get(k, "")`. */
  function DisplayOf(display: map<string, string>, code: string): (name: string)
    ensures code in display ==> name == display[code]
    ensures code !in display ==> name == ""
  {
    if code in display then display[code] else ""
  }

  /** Lines 234-246 for one kept row. */
  function ToOut(r: EstRow, ufUser: string, display: map<string, string>): (o: OutRow)
    ensures o.municipio == DisplayOf(display, r.codigoMunicipio) && o.uf == ufUser
    ensures o.cnpj == CnpjFull(r.cnpjBasico, r.cnpjOrdem, r.cnpjDv)
    ensures o.nome == r.nomeFantasia
    ensures o.endereco == MontaEndereco(AddressFields(r.tipoLogradouro, r.logradouro, r.numero, r.complemento, r.bairro,
                                                      DisplayOf(display, r.codigoMunicipio), r.municipio, ufUser, r.uf, r.cep))
    ensures o.cnaePrincipal == r.cnaePrincipal && o.cnaesSecundarios == r.cnaesSecundarios
  {
    var mun := DisplayOf(display, r.codigoMunicipio);
    var fields := AddressFields(r.tipoLogradouro, r.logradouro, r.numero, r.complemento, r.bairro,
                                mun, r.municipio, ufUser, r.uf, r.cep);
    OutRow(r.nomeFantasia, CnpjFull(r.cnpjBasico, r.cnpjOrdem, r.cnpjDv), MontaEndereco(fields),
           r.cnaePrincipal, r.cnaesSecundarios, mun, ufUser)
  }

  function Keeps(ufUser: string, cods: set<string>): EstRow -> bool {
    (r: EstRow) => KeepRow(r, ufUser, cods)
  }

  function Shape(ufUser: string, display: map<string, string>): EstRow -> OutRow {
    (r: EstRow) => ToOut(r, ufUser, display)
  }

  /** One chunk shaped: the kept rows, in order, as output rows. */
  function ShapeChunk(rows: seq<EstRow>, ufUser: string, cods: set<string>, display: map<string, string>): (out: seq<OutRow>)
    ensures |out| <= |rows|
    ensures forall i :: 0 <= i < |out| ==> out[i].uf == ufUser
  {
    MapSeq(Filter(rows, Keeps(ufUser, cods)), Shape(ufUser, display))
  }

  /** A row is shaped into the output exactly when the mask keeps it. */
  lemma ShapeChunkSelects(rows: seq<EstRow>, ufUser: string, cods: set<string>, display: map<string, string>, r: EstRow)
    ensures r in rows && r.uf == ufUser && r.codigoMunicipio in cods && r.situacao in Active ==>
              ToOut(r, ufUser, display) in ShapeChunk(rows, ufUser, cods, display)
    ensures forall o :: o in ShapeChunk(rows, ufUser, cods, display) ==>
              exists x :: x in rows && KeepRow(x, ufUser, cods) && o == ToOut(x, ufUser, display)
  {
    MapFilterMembership(rows, Keeps(ufUser, cods), Shape(ufUser, display), r);
  }

  // ---------------------------------------------------------------------------
  // Cross-chunk dedupe (lines 248-258)

  function Cnpj(o: OutRow): string {
    o.cnpj
  }

  function NotSeen(seen: set<string>): OutRow -> bool {
    (o: OutRow) => o.cnpj !in seen
  }

  /** The order the chunk is written in: by `nome`, then `cnpj`. */
  function NameKey(o: OutRow): SortKey {
    [Str(o.nome), Str(o.cnpj)]
  }

  /** Lines 249-252 as written: drop the rows whose CNPJ an earlier chunk
      wrote, then add the survivors' CNPJs to `seen`. One entry per chunk. */
  function SelectAsWritten(chunks: seq<seq<OutRow>>, seen: set<string>): (sel: seq<seq<OutRow>>)
    ensures |sel| == |chunks|
    decreases |chunks|
  {
    if |chunks| == 0 then []
    else
      var out := Filter(chunks[0], NotSeen(seen));
      [out] + SelectAsWritten(chunks[1..], seen + KeySet(out, Cnpj))
  }

  /** Each chunk writes only rows of that chunk whose CNPJ was not in
      `seen` before the run. */
  lemma {:induction false} SelectAsWrittenMembers(chunks: seq<seq<OutRow>>, seen: set<string>, j: nat, o: OutRow)
    requires j < |chunks| && o in SelectAsWritten(chunks, seen)[j]
    ensures o in chunks[j] && o.cnpj !in seen
    decreases j
  {
    var out := Filter(chunks[0], NotSeen(seen));
    var seen' := seen + KeySet(out, Cnpj);
    SelectAsWrittenCons(chunks, seen);
    if j == 0 {
      FilterMembership(chunks[0], NotSeen(seen), o);
    } else {
      assert SelectAsWritten(chunks, seen)[j] == SelectAsWritten(chunks[1..], seen')[j - 1];
      SelectAsWrittenMembers(chunks[1..], seen', j - 1, o);
      assert chunks[1..][j - 1] == chunks[j];
    }
  }

  /** What each chunk appends to the output file, sorted by name and CNPJ. */
  function WriteChunks(chunks: seq<seq<OutRow>>): (written: seq<seq<OutRow>>)
    ensures |written| == |chunks|
    ensures forall j :: 0 <= j < |written| ==> SortedBy(written[j], NameKey)
    ensures forall j :: 0 <= j < |written| ==> multiset(written[j]) == multiset(SelectAsWritten(chunks, {})[j])
  {
    var sel := SelectAsWritten(chunks, {});
    MapSeq(sel, (rows: seq<OutRow>) => SortBy(rows, NameKey))
  }

  /** Two different chunks never write the same CNPJ: whatever one chunk
      writes is in `seen` for every later one. */
  lemma {:induction false} AsWrittenAcrossChunks(chunks: seq<seq<OutRow>>, seen: set<string>, i: nat, j: nat, a: OutRow, b: OutRow)
    requires i < j < |chunks|
    requires a in SelectAsWritten(chunks, seen)[i] && b in SelectAsWritten(chunks, seen)[j]
    ensures a.cnpj != b.cnpj
    decreases i
  {
    var out := Filter(chunks[0], NotSeen(seen));
    var seen' := seen + KeySet(out, Cnpj);
    SelectAsWrittenCons(chunks, seen);
    assert b in SelectAsWritten(chunks[1..], seen')[j - 1];
    if i == 0 {
      assert a in out;
      KeySetMember(out, a);
      SelectAsWrittenMembers(chunks[1..], seen', j - 1, b);
    } else {
      assert a in SelectAsWritten(chunks[1..], seen')[i - 1];
      AsWrittenAcrossChunks(chunks[1..], seen', i - 1, j - 1, a, b);
    }
  }

  lemma KeySetMember(rows: seq<OutRow>, a: OutRow)
    requires a in rows
    ensures a.cnpj in KeySet(rows, Cnpj)
  {
    var k :| 0 <= k < |rows| && rows[k] == a;
    assert Cnpj(rows[k]) in KeySet(rows, Cnpj);
  }

  /** The selection of the first chunk, then of the rest with its CNPJs
      added to `seen`. */
  lemma SelectAsWrittenCons(chunks: seq<seq<OutRow>>, seen: set<string>)
    requires |chunks| > 0
    ensures var out := Filter(chunks[0], NotSeen(seen));
            SelectAsWritten(chunks, seen) == [out] + SelectAsWritten(chunks[1..], seen + KeySet(out, Cnpj))
  {
  }

  /** As written, two rows with the same CNPJ in one chunk are both
      written. */
  lemma AsWrittenKeepsDuplicateInChunk(o: OutRow)
    ensures SelectAsWritten([[o, o]], {}) == [[o, o]]
  {
    var keep := NotSeen({});
    assert keep(o);
    assert [o, o][1..] == [o] && [o][1..] == [];
    assert Filter([o], keep) == [o];
    assert Filter([o, o], keep) == [o, o];
  }

  /** The intended dedupe: a row is written exactly when no row before it,
      in this chunk or an earlier one, carried its CNPJ. */
  function SelectFirstWins(chunks: seq<seq<OutRow>>, seen: set<string>): (sel: seq<seq<OutRow>>)
    ensures |sel| == |chunks|
    decreases |chunks|
  {
    if |chunks| == 0 then []
    else
      var out := DedupeFrom(chunks[0], Cnpj, seen);
      [out] + SelectFirstWins(chunks[1..], seen + KeySet(out, Cnpj))
  }

  /** The corrected dedupe writes, over all chunks together, exactly the
      first row of every CNPJ not already seen, in input order; so no CNPJ
      is written twice. */
  lemma {:induction false} FirstWinsOverAllChunks(chunks: seq<seq<OutRow>>, seen: set<string>)
    ensures Flatten(SelectFirstWins(chunks, seen)) == DedupeFrom(Flatten(chunks), Cnpj, seen)
    decreases |chunks|
  {
    if |chunks| > 0 {
      var out := DedupeFrom(chunks[0], Cnpj, seen);
      FirstWinsOverAllChunks(chunks[1..], seen + KeySet(out, Cnpj));
      DedupeFromAppend(chunks[0], Flatten(chunks[1..]), Cnpj, seen);
    }
  }

  /** From an empty `seen`, the corrected selection is first-wins
      deduplication of all rows by CNPJ: distinct CNPJs, every CNPJ
      present, rows in input order. */
  lemma FirstWinsDistinct(chunks: seq<seq<OutRow>>)
    ensures var all := Flatten(SelectFirstWins(chunks, {}));
            && DistinctKeys(all, Cnpj)
            && KeySet(all, Cnpj) == KeySet(Flatten(chunks), Cnpj)
            && Subseq(all, Flatten(chunks))
  {
    var xs := Flatten(chunks);
    FirstWinsOverAllChunks(chunks, {});
    assert Dedupe(xs, Cnpj) == DedupeFrom(xs, Cnpj, {});
    FirstOccurrencesProperties(xs, Cnpj);
  }

  /** On chunks without a repeated CNPJ inside any one of them, the code as
      written and the corrected dedupe select the same rows. */
  lemma {:induction false} AsWrittenAgreesWithoutInChunkRepeats(chunks: seq<seq<OutRow>>, seen: set<string>)
    requires forall j :: 0 <= j < |chunks| ==> DistinctKeys(chunks[j], Cnpj)
    ensures SelectAsWritten(chunks, seen) == SelectFirstWins(chunks, seen)
    decreases |chunks|
  {
    if |chunks| > 0 {
      FilterIsScan(chunks[0], seen);
      var out := Filter(chunks[0], NotSeen(seen));
      assert forall j :: 0 <= j < |chunks[1..]| ==> chunks[1..][j] == chunks[j + 1];
      AsWrittenAgreesWithoutInChunkRepeats(chunks[1..], seen + KeySet(out, Cnpj));
    }
  }

  /** On rows with distinct CNPJs, dropping the seen ones is the scan. */
  lemma {:induction false} FilterIsScan(rows: seq<OutRow>, seen: set<string>)
    requires DistinctKeys(rows, Cnpj)
    ensures Filter(rows, NotSeen(seen)) == DedupeFrom(rows, Cnpj, seen)
    decreases |rows|
  {
    if |rows| > 0 {
      var x := rows[0];
      assert DistinctKeys(rows[1..], Cnpj) by {
        assert forall i :: 0 <= i < |rows| - 1 ==> rows[1..][i] == rows[i + 1];
      }
      var tail := rows[1..];
      assert forall i :: 0 <= i < |tail| ==> tail[i].cnpj != x.cnpj by {
        assert forall i :: 0 <= i < |tail| ==> tail[i] == rows[i + 1];
      }
      FilterIsScan(tail, seen);
      if x.cnpj !in seen {
        FilterIsScan(tail, seen + {x.cnpj});
        FilterAgrees(tail, seen, x.cnpj);
      }
    }
  }

  /** Adding a key no row carries to `seen` changes no filter result. */
  lemma {:induction false} FilterAgrees(rows: seq<OutRow>, seen: set<string>, k: string)
    requires forall i :: 0 <= i < |rows| ==> rows[i].cnpj != k
    ensures Filter(rows, NotSeen(seen)) == Filter(rows, NotSeen(seen + {k}))
    decreases |rows|
  {
    if |rows| > 0 {
      assert forall i :: 0 <= i < |rows| - 1 ==> rows[1..][i] == rows[i + 1];
      FilterAgrees(rows[1..], seen, k);
    }
  }
}
