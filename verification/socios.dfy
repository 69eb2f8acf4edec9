/** Joining the base to the partner rows (merge_socios.py): the code
    tables, the partner-type filter, the target filter, the one-row-per-root
    view of the base, the m:1 join, and the `--max-n` stopping rule over
    the files and chunks read. */
module Socios {
  import opened Basics
  import opened Text
  import opened Seqs
  import opened Empresas

  // ---------------------------------------------------------------------------
  // Code tables (lines 41, 54-55, 57-90)

  /** `so_digitos`: only the digits of a cell, in order (lines 54-55). */
  function SoDigitos(x: string): (d: string)
    ensures AllDigits(d) && |d| <= |x|
    ensures AllDigits(x) ==> d == x
  {
    if AllDigits(x) then
      DigitsOfDigits(x);
      Digits(x)
    else Digits(x)
  }

  /** Reducing to digits twice changes nothing. */
  lemma SoDigitosIdempotent(x: string)
    ensures SoDigitos(SoDigitos(x)) == SoDigitos(x)
  {
  }

  const IdentMap: map<string, string> := map["1" := "Pessoa Jurídica", "2" := "Pessoa Física", "3" := "Estrangeiro"]

  /** Lines 176-178: the stripped identifier looked up in `IDENT_MAP`. */
  function IdentText(x: string): (t: string)
    ensures Strip(x) in IdentMap ==> t == IdentMap[Strip(x)]
    ensures Strip(x) !in IdentMap ==> t == "Desconhecido"
  {
    if Strip(x) in IdentMap then IdentMap[Strip(x)] else "Desconhecido"
  }

  /** An identifier decodes to a known partner type exactly when, stripped,
      it is one of the three codes. */
  lemma IdentKnown(x: string)
    ensures IdentText(x) != "Desconhecido" <==> Strip(x) in IdentMap
  {
    if Strip(x) in IdentMap {
      assert IdentMap[Strip(x)][0] != 'D';
    }
  }

  /** Surrounding whitespace never changes the decoded type. */
  lemma IdentStripped(x: string)
    ensures IdentText(Strip(x)) == IdentText(x)
  {
    StripIdempotent(x);
  }

  /** One line of a code table file: its code and its description. */
  datatype CodeLine = CodeLine(code: string, desc: string)

  /** `dict(zip(cod, desc))` over stripped codes (and, when asked, stripped
      descriptions): a later line with the same code replaces an earlier
      one (lines 74-76 and 88-90). */
  function CodeMap(lines: seq<CodeLine>, stripDesc: bool): (m: map<string, string>)
    ensures m.Keys == KeySet(lines, StrippedCode)
    decreases |lines|
  {
    if |lines| == 0 then map[]
    else
      var last := lines[|lines| - 1];
      CodeMap(lines[..|lines| - 1], stripDesc)[Strip(last.code) := if stripDesc then Strip(last.desc) else last.desc]
  }

  function StrippedCode(l: CodeLine): string {
    Strip(l.code)
  }

  /** The description a code gets is the one of the last line carrying
      that code. */
  lemma {:induction false} CodeMapLastWins(lines: seq<CodeLine>, stripDesc: bool, i: nat)
    requires i < |lines|
    requires forall j :: i < j < |lines| ==> Strip(lines[j].code) != Strip(lines[i].code)
    ensures CodeMap(lines, stripDesc)[Strip(lines[i].code)]
         == if stripDesc then Strip(lines[i].desc) else lines[i].desc
    decreases |lines|
  {
    if i < |lines| - 1 {
      var init := lines[..|lines| - 1];
      assert init[i] == lines[i];
      assert forall j :: i < j < |init| ==> init[j] == lines[j];
      CodeMapLastWins(init, stripDesc, i);
    }
  }

  /** Lines 185-187: the stripped country code looked up, or `""` without a
      country table. */
  function PaisText(pais: map<string, string>, code: string): (t: string)
    ensures |pais| == 0 ==> t == ""
  {
    if |pais| > 0 then QualText(pais, code) else ""
  }

  /** The empty-table branch is the lookup's own miss: without a country
      table every code decodes to `""` either way. */
  lemma PaisTextIsLookup(pais: map<string, string>, code: string)
    ensures PaisText(pais, code) == QualText(pais, code)
  {
    if |pais| == 0 {
      assert Strip(code) !in pais;
    }
  }

  // ---------------------------------------------------------------------------
  // Partner rows and filters (lines 133-173)

  /** The eleven columns of a partner row. */
  datatype SocioRow = SocioRow(
    cnpjBasico: string,
    identificador: string,
    nome: string,
    cnpjCpf: string,
    codQualificacao: string,
    dataEntrada: string,
    codPais: string,
    cpfRepresentante: string,
    nomeRepresentante: string,
    codQualificacaoRepresentante: string,
    faixaEtaria: string)

  /** The `--only` choice. */
  datatype Only = All | PF | PJ | Ext

  /** Lines 141-142. */
  function OnlyCode(o: Only): (c: Option<string>)
    ensures c.None? <==> o == All
    ensures c.Some? ==> c.value in IdentMap
  {
    match o
    case All => None
    case PF => Some("2")
    case PJ => Some("1")
    case Ext => Some("3")
  }

  /** Lines 170-173: the identifier compared as written, not stripped. */
  function KeepsType(o: Only): SocioRow -> bool {
    (r: SocioRow) => OnlyCode(o).None? || r.identificador == OnlyCode(o).value
  }

  /** Line 165. */
  function Targeted(targets: set<string>): SocioRow -> bool {
    (r: SocioRow) => r.cnpjBasico in targets
  }

  /** Each choice keeps exactly the rows of its partner type, and `ALL`
      keeps every row. */
  lemma OnlyKeepsType(o: Only, r: SocioRow)
    ensures KeepsType(o)(r) <==> match o
                                 case All => true
                                 case PF => r.identificador == "2"
                                 case PJ => r.identificador == "1"
                                 case Ext => r.identificador == "3"
    ensures KeepsType(o)(r) && o != All ==> IdentText(r.identificador) == IdentMap[OnlyCode(o).value]
  {
    if KeepsType(o)(r) && o != All {
      StripOfStripped(r.identificador);
    }
  }

  /** The filter compares the identifier as written while the decoding
      strips it: a padded `" 2"` (any whitespace before the code) decodes
      as a natural person yet `--only PF` drops it. */
  lemma OnlyIgnoresPadding(r: SocioRow)
    requires |r.identificador| == 2 && IsSpace(r.identificador[0]) && r.identificador[1] == '2'
    ensures IdentText(r.identificador) == "Pessoa Física"
    ensures !KeepsType(PF)(r)
  {
    var x := r.identificador;
    assert IdentText(x) == "Pessoa Física" by {
      StripPadded(x);
      assert IdentMap["2"] == "Pessoa Física";
    }
    assert !KeepsType(PF)(r) by {
      assert OnlyCode(PF).value == "2" && |x| == 2;
    }
  }

  lemma StripPadded(x: string)
    requires |x| == 2 && IsSpace(x[0]) && x[1] == '2'
    ensures Strip(x) == "2"
  {
    var c := x[1..];
    assert c == "2";
    assert StripLeftSpace(x) == StripLeftSpace(c);
    StripOfStripped(c);
  }

  // ---------------------------------------------------------------------------
  // The base side (lines 111-121)

  const EmpFields: seq<string> := ["razao_social", "porte_empresa_txt", "capital_social", "nome", "endereco"]

  /** The columns `base_min` keeps: the root, the CNPJ and those of
      `EMP_FIELDS` the base has (lines 119-120). */
  function MinColumns(columns: set<string>): (cols: set<string>)
    ensures "cnpj_basico" in cols && "cnpj" in cols
    ensures forall c :: c in cols <==> c == "cnpj_basico" || c == "cnpj" || (c in EmpFields && c in columns)
  {
    {"cnpj_basico", "cnpj"} + set c | c in EmpFields && c in columns
  }

  function RootOf(r: Record): string {
    TextOf(Get(r, "cnpj_basico"))
  }

  /** A base row cut down to the kept columns. */
  function Narrow(cols: set<string>): Record -> Record {
    (r: Record) => map c | c in cols && c in r :: r[c]
  }

  /** `base_min`: the base with a fourteen-digit CNPJ, narrowed, one row per
      root with the first kept (lines 115-120). No row left is not an
      error here. */
  function BaseMin(columns: set<string>, rows: seq<Record>): (bm: seq<Record>)
    ensures DistinctKeys(bm, RootOf)
    ensures KeySet(bm, RootOf) == KeySet(MapSeq(FullCnpjRows(rows), Narrow(MinColumns(columns))), RootOf)
  {
    var narrowed := MapSeq(FullCnpjRows(rows), Narrow(MinColumns(columns)));
    FirstOccurrencesProperties(narrowed, RootOf);
    Dedupe(narrowed, RootOf)
  }

  /** Narrowing keeps the root, so the targets are the roots of every
      fourteen-digit base row. */
  lemma BaseMinRoots(columns: set<string>, rows: seq<Record>)
    ensures KeySet(BaseMin(columns, rows), RootOf) == KeySet(FullCnpjRows(rows), RootOf)
  {
    var full := FullCnpjRows(rows);
    var narrowed := MapSeq(full, Narrow(MinColumns(columns)));
    forall k ensures k in KeySet(narrowed, RootOf) <==> k in KeySet(full, RootOf) {
      KeySetIff(narrowed, RootOf, k);
      KeySetIff(full, RootOf, k);
      forall i | 0 <= i < |full| ensures RootOf(narrowed[i]) == RootOf(full[i]) {
        assert BaseShaped(full[i]);
        assert "cnpj_basico" in MinColumns(columns);
      }
    }
  }

  /** The base row for a root, if any. */
  function FindBase(bm: seq<Record>, basico: string): (r: Option<Record>)
    ensures r.Some? ==> r.value in bm && RootOf(r.value) == basico
    ensures r.None? <==> forall i :: 0 <= i < |bm| ==> RootOf(bm[i]) != basico
  {
    if |bm| == 0 then None
    else if RootOf(bm[0]) == basico then Some(bm[0])
    else FindBase(bm[1..], basico)
  }

  /** A root is found exactly when it is one of the base's roots. */
  lemma FindBaseTargets(bm: seq<Record>, basico: string)
    ensures FindBase(bm, basico).Some? <==> basico in KeySet(bm, RootOf)
  {
    KeySetIff(bm, RootOf, basico);
  }

  // ---------------------------------------------------------------------------
  // Decoding and the join (lines 176-193)

  /** A partner row with its derived columns and the base row it joined. */
  datatype SocioOut = SocioOut(
    company: Option<Record>,
    socio: SocioRow,
    identTxt: string,
    qualificacaoTxt: string,
    qualificacaoRepresentanteTxt: string,
    paisTxt: string,
    docSocio: string,
    docRepresentante: string)

  /** Lines 176-193 for one kept row. */
  function JoinRow(bm: seq<Record>, qual: map<string, string>, pais: map<string, string>): SocioRow -> SocioOut {
    (r: SocioRow) =>
      SocioOut(FindBase(bm, r.cnpjBasico), r, IdentText(r.identificador),
             QualText(qual, r.codQualificacao), QualText(qual, r.codQualificacaoRepresentante),
             PaisText(pais, r.codPais), SoDigitos(r.cnpjCpf), SoDigitos(r.cpfRepresentante))
  }

  /** One chunk: target filter, type filter, decoding, join. */
  function ChunkOut(chunk: seq<SocioRow>, bm: seq<Record>, o: Only,
                    qual: map<string, string>, pais: map<string, string>): seq<SocioOut>
  {
    MapSeq(Filter(Filter(chunk, Targeted(KeySet(bm, RootOf))), KeepsType(o)), JoinRow(bm, qual, pais))
  }

  /** Every partner row written found its company: the target set is the
      base's roots, so the left join never leaves a row unmatched, and the
      derived documents are digits only. */
  lemma ChunkOutJoined(chunk: seq<SocioRow>, bm: seq<Record>, o: Only,
                       qual: map<string, string>, pais: map<string, string>, j: SocioOut)
    requires j in ChunkOut(chunk, bm, o, qual, pais)
    ensures j.socio in chunk && j.socio.cnpjBasico in KeySet(bm, RootOf) && KeepsType(o)(j.socio)
    ensures j.company.Some? && j.company.value in bm && RootOf(j.company.value) == j.socio.cnpjBasico
    ensures AllDigits(j.docSocio) && AllDigits(j.docRepresentante)
  {
    var t := Filter(chunk, Targeted(KeySet(bm, RootOf)));
    var kept := Filter(t, KeepsType(o));
    var i :| 0 <= i < |kept| && ChunkOut(chunk, bm, o, qual, pais)[i] == j;
    FilterMembership(t, KeepsType(o), kept[i]);
    FilterMembership(chunk, Targeted(KeySet(bm, RootOf)), kept[i]);
    FindBaseTargets(bm, j.socio.cnpjBasico);
  }

  /** A target row of the chosen type is written. */
  lemma ChunkOutComplete(chunk: seq<SocioRow>, bm: seq<Record>, o: Only,
                         qual: map<string, string>, pais: map<string, string>, r: SocioRow)
    requires r in chunk && r.cnpjBasico in KeySet(bm, RootOf) && KeepsType(o)(r)
    ensures JoinRow(bm, qual, pais)(r) in ChunkOut(chunk, bm, o, qual, pais)
  {
    var t := Filter(chunk, Targeted(KeySet(bm, RootOf)));
    FilterMembership(chunk, Targeted(KeySet(bm, RootOf)), r);
    MapFilterMembership(t, KeepsType(o), JoinRow(bm, qual, pais), r);
  }

  // ---------------------------------------------------------------------------
  // Reading with `--max-n` (lines 150-226)

  function RowCount(chunks: seq<seq<SocioRow>>): nat {
    if |chunks| == 0 then 0 else |chunks[0]| + RowCount(chunks[1..])
  }

  predicate Stopped(maxN: Option<nat>, processed: nat) {
    maxN.Some? && processed >= maxN.value
  }

  /** The chunks of one file that are read, and the count after them: the
      limit is checked before each chunk (lines 160-162). */
  function ReadFile(chunks: seq<seq<SocioRow>>, maxN: Option<nat>, processed: nat): (r: (seq<seq<SocioRow>>, nat))
    ensures |r.0| <= |chunks| && r.0 == chunks[..|r.0|]
    ensures r.1 == processed + RowCount(r.0)
    ensures |r.0| < |chunks| ==> Stopped(maxN, r.1)
    decreases |chunks|
  {
    if |chunks| == 0 || Stopped(maxN, processed) then ([], processed)
    else
      var (rest, p) := ReadFile(chunks[1..], maxN, processed + |chunks[0]|);
      assert [chunks[0]] + chunks[1..][..|rest|] == chunks[..|rest| + 1];
      ([chunks[0]] + rest, p)
  }

  /** The loop over files: after a file, a reached limit ends the run
      (lines 224-226). */
  function ReadFiles(files: seq<seq<seq<SocioRow>>>, maxN: Option<nat>, processed: nat): seq<seq<SocioRow>>
    decreases |files|
  {
    if |files| == 0 then []
    else
      var (read, p) := ReadFile(files[0], maxN, processed);
      if Stopped(maxN, p) then read else read + ReadFiles(files[1..], maxN, p)
  }

  /** Reference definition of the limit: over all chunks of all files in
      order, chunks are read until the rows read reach `max_n`. */
  function ReadUpTo(chunks: seq<seq<SocioRow>>, maxN: Option<nat>, processed: nat): (r: seq<seq<SocioRow>>)
    ensures |r| <= |chunks| && r == chunks[..|r|]
    ensures maxN.None? ==> r == chunks
    ensures |r| < |chunks| ==> Stopped(maxN, processed + RowCount(r))
    decreases |chunks|
  {
    if |chunks| == 0 || Stopped(maxN, processed) then []
    else
      var rest := ReadUpTo(chunks[1..], maxN, processed + |chunks[0]|);
      assert [chunks[0]] + chunks[1..][..|rest|] == chunks[..|rest| + 1];
      [chunks[0]] + rest
  }

  /** The last chunk read began below the limit. */
  lemma {:induction false} ReadUpToLastBelow(chunks: seq<seq<SocioRow>>, maxN: Option<nat>, processed: nat)
    ensures var r := ReadUpTo(chunks, maxN, processed);
            |r| > 0 ==> !Stopped(maxN, processed + RowCount(r[..|r| - 1]))
    decreases |chunks|
  {
    var r := ReadUpTo(chunks, maxN, processed);
    if |r| > 1 {
      var rest := ReadUpTo(chunks[1..], maxN, processed + |chunks[0]|);
      ReadUpToLastBelow(chunks[1..], maxN, processed + |chunks[0]|);
      assert r[..|r| - 1] == [chunks[0]] + rest[..|rest| - 1];
      assert RowCount(r[..|r| - 1]) == |chunks[0]| + RowCount(rest[..|rest| - 1]) by {
        assert r[..|r| - 1][1..] == rest[..|rest| - 1];
      }
    } else if |r| == 1 {
      assert r[..0] == [];
    }
  }

  lemma {:induction false} RowCountAppend(a: seq<seq<SocioRow>>, b: seq<seq<SocioRow>>)
    ensures RowCount(a + b) == RowCount(a) + RowCount(b)
    decreases |a|
  {
    if |a| == 0 {
      assert a + b == b;
    } else {
      AppendTail(a, b);
      RowCountAppend(a[1..], b);
    }
  }

  /** One file read through is the reference scan over its chunks. */
  lemma {:induction false} ReadFileIsReadUpTo(chunks: seq<seq<SocioRow>>, maxN: Option<nat>, processed: nat)
    ensures ReadFile(chunks, maxN, processed).0 == ReadUpTo(chunks, maxN, processed)
    decreases |chunks|
  {
    if |chunks| > 0 && !Stopped(maxN, processed) {
      ReadFileIsReadUpTo(chunks[1..], maxN, processed + |chunks[0]|);
    }
  }

  /** Scanning two stretches of chunks is scanning the first and, when all
      of it was read, the second with the count so far. */
  lemma ReadUpToAppend(a: seq<seq<SocioRow>>, b: seq<seq<SocioRow>>, maxN: Option<nat>, processed: nat)
    ensures ReadUpTo(a + b, maxN, processed)
         == if |ReadUpTo(a, maxN, processed)| < |a| then ReadUpTo(a, maxN, processed)
            else a + ReadUpTo(b, maxN, processed + RowCount(a))
  {
    if |ReadUpTo(a, maxN, processed)| < |a| {
      ReadUpToAppendStopped(a, b, maxN, processed);
    } else {
      ReadUpToAppendFull(a, b, maxN, processed);
    }
  }

  /** A scan that stops inside the first stretch never reaches the second. */
  lemma {:induction false} ReadUpToAppendStopped(a: seq<seq<SocioRow>>, b: seq<seq<SocioRow>>, maxN: Option<nat>, processed: nat)
    requires |ReadUpTo(a, maxN, processed)| < |a|
    ensures ReadUpTo(a + b, maxN, processed) == ReadUpTo(a, maxN, processed)
    decreases |a|
  {
    assert (a + b)[0] == a[0];
    if !Stopped(maxN, processed) {
      var p1 := processed + |a[0]|;
      AppendTail(a, b);
      assert ReadUpTo(a, maxN, processed) == [a[0]] + ReadUpTo(a[1..], maxN, p1);
      ReadUpToAppendStopped(a[1..], b, maxN, p1);
    }
  }

  /** A scan that reads all of the first stretch goes on into the second
      with the count so far. */
  lemma {:induction false} ReadUpToAppendFull(a: seq<seq<SocioRow>>, b: seq<seq<SocioRow>>, maxN: Option<nat>, processed: nat)
    requires |ReadUpTo(a, maxN, processed)| == |a|
    ensures ReadUpTo(a + b, maxN, processed) == a + ReadUpTo(b, maxN, processed + RowCount(a))
    decreases |a|
  {
    if |a| == 0 {
      assert a + b == b;
    } else {
      var p1 := processed + |a[0]|;
      var rb := ReadUpTo(b, maxN, processed + RowCount(a));
      FullReadStep(a, maxN, processed);
      ReadUpToConsAppend(a, b, maxN, processed);
      ReadUpToAppendFull(a[1..], b, maxN, p1);
      ConsAppend(a, rb);
    }
  }

  /** A scan that reads all of a non-empty stretch starts below the limit
      and reads all of its tail. */
  lemma FullReadStep(a: seq<seq<SocioRow>>, maxN: Option<nat>, processed: nat)
    requires |a| > 0 && |ReadUpTo(a, maxN, processed)| == |a|
    ensures !Stopped(maxN, processed)
    ensures |ReadUpTo(a[1..], maxN, processed + |a[0]|)| == |a[1..]|
    ensures processed + |a[0]| + RowCount(a[1..]) == processed + RowCount(a)
  {
  }

  /** One step of the scan over a concatenation whose left operand is not
      empty. */
  lemma ReadUpToConsAppend(a: seq<seq<SocioRow>>, b: seq<seq<SocioRow>>, maxN: Option<nat>, processed: nat)
    requires |a| > 0 && !Stopped(maxN, processed)
    ensures ReadUpTo(a + b, maxN, processed) == [a[0]] + ReadUpTo(a[1..] + b, maxN, processed + |a[0]|)
  {
    AppendTail(a, b);
    ReadUpToCons(a + b, maxN, processed);
  }

  /** One step of the scan below the limit. */
  lemma ReadUpToCons(chunks: seq<seq<SocioRow>>, maxN: Option<nat>, processed: nat)
    requires |chunks| > 0 && !Stopped(maxN, processed)
    ensures ReadUpTo(chunks, maxN, processed) == [chunks[0]] + ReadUpTo(chunks[1..], maxN, processed + |chunks[0]|)
  {
  }

  /** The nested loop over files and chunks reads exactly the chunks the
      reference scan reads over all files in order: stopping after a file
      adds nothing. */
  lemma {:induction false} ReadFilesIsReadUpTo(files: seq<seq<seq<SocioRow>>>, maxN: Option<nat>, processed: nat)
    ensures ReadFiles(files, maxN, processed) == ReadUpTo(Flatten(files), maxN, processed)
    decreases |files|
  {
    if |files| > 0 {
      var (read, p) := ReadFile(files[0], maxN, processed);
      var rest := Flatten(files[1..]);
      ReadFileIsReadUpTo(files[0], maxN, processed);
      ReadUpToAppend(files[0], rest, maxN, processed);
      if |read| == |files[0]| {
        assert read == files[0];
        if Stopped(maxN, p) {
          assert ReadUpTo(rest, maxN, p) == [];
          assert read + [] == read;
        } else {
          ReadFilesIsReadUpTo(files[1..], maxN, p);
        }
      }
    }
  }

  /** With a limit, the chunks read are a prefix of all chunks, the last
      one read began below the limit, and the run stops early only once
      the count has reached it. */
  lemma MaxNStops(files: seq<seq<seq<SocioRow>>>, m: nat)
    ensures var read := ReadFiles(files, Some(m), 0);
            && |read| <= |Flatten(files)| && read == Flatten(files)[..|read|]
            && (|read| < |Flatten(files)| ==> RowCount(read) >= m)
            && (|read| > 0 ==> RowCount(read[..|read| - 1]) < m)
  {
    ReadFilesIsReadUpTo(files, Some(m), 0);
    ReadUpToLastBelow(Flatten(files), Some(m), 0);
  }

  /** Without a limit every chunk of every file is read. */
  lemma NoMaxNReadsAll(files: seq<seq<seq<SocioRow>>>)
    ensures ReadFiles(files, None, 0) == Flatten(files)
  {
    ReadFilesIsReadUpTo(files, None, 0);
  }

  // ---------------------------------------------------------------------------
  // The whole run

  /** Lines 111-226: the base's `cnpj` column is required; the written rows
      are the joined rows of the chunks read, chunk after chunk. */
  function MergeSocios(inputName: string, columns: set<string>, base: seq<Record>, files: seq<seq<seq<SocioRow>>>,
                       o: Only, maxN: Option<nat>, qual: map<string, string>,
                       pais: map<string, string>): (r: Result<seq<SocioOut>>)
    ensures r.Err? <==> "cnpj" !in columns
    ensures r.Err? ==> |r.message| > |inputName| && r.message[..|inputName|] == inputName
  {
    if "cnpj" !in columns then Err(inputName + " precisa ter a coluna 'cnpj' (14 dígitos).")
    else
      var bm := BaseMin(columns, base);
      Ok(OutChunks(ReadFiles(files, maxN, 0), bm, o, qual, pais))
  }

  function OutChunks(chunks: seq<seq<SocioRow>>, bm: seq<Record>, o: Only,
                     qual: map<string, string>, pais: map<string, string>): seq<SocioOut>
    decreases |chunks|
  {
    if |chunks| == 0 then [] else ChunkOut(chunks[0], bm, o, qual, pais) + OutChunks(chunks[1..], bm, o, qual, pais)
  }

  /** Chunking does not change what is written: it is the joined rows of
      all rows read, filtered once. */
  lemma {:induction false} OutChunksIgnoresChunking(chunks: seq<seq<SocioRow>>, bm: seq<Record>, o: Only,
                                                    qual: map<string, string>, pais: map<string, string>)
    ensures OutChunks(chunks, bm, o, qual, pais) == ChunkOut(Flatten(chunks), bm, o, qual, pais)
    decreases |chunks|
  {
    if |chunks| > 0 {
      OutChunksIgnoresChunking(chunks[1..], bm, o, qual, pais);
      var t := Targeted(KeySet(bm, RootOf));
      var a := chunks[0];
      var b := Flatten(chunks[1..]);
      assert Flatten(chunks) == a + b;
      FilterAppend(a, b, t);
      FilterAppend(Filter(a, t), Filter(b, t), KeepsType(o));
      var f := JoinRow(bm, qual, pais);
      var ka := Filter(Filter(a, t), KeepsType(o));
      var kb := Filter(Filter(b, t), KeepsType(o));
      assert Filter(Filter(a + b, t), KeepsType(o)) == ka + kb;
      MapSeqAppend(ka, kb, f);
      assert ChunkOut(a + b, bm, o, qual, pais) == MapSeq(ka, f) + MapSeq(kb, f);
    }
  }
}
