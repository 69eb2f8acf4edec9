/** Enriching the base with company data (merge_com_empresas.py): CNPJ
    normalisation of the base, the size-class and qualification decoding,
    the target filter and dedupe of the company rows, the left join, the
    no-match branch, and the column fill, dedupe and order of the output.
    A table is a sequence of records from column name to cell; a cell the
    join leaves empty is `Missing` (pandas' NaN, written as an empty cell). */
module Empresas {
  import opened Basics
  import opened Text
  import opened Seqs

  type Record = map<string, Field>

  /** The text of a cell as written to CSV. */
  function TextOf(f: Field): string {
    match f
    case Str(t) => t
    case Missing => ""
  }

  function Get(r: Record, c: string): Field {
    if c in r then r[c] else Missing
  }

  // ---------------------------------------------------------------------------
  // Size class (lines 23-33, 157)

  const PorteMap: map<string, string> := map[
    "00" := "Não informado", "01" := "Microempresa",
    "03" := "Empresa de Pequeno Porte", "05" := "Demais",
    "0" := "Não informado", "1" := "Microempresa",
    "3" := "Empresa de Pequeno Porte", "5" := "Demais"]

  /** `PORTE_MAP` with `fillna("Desconhecido")`: the code is looked up as
      written. */
  function PorteText(code: string): (t: string)
    ensures code in PorteMap ==> t == PorteMap[code]
    ensures code !in PorteMap ==> t == "Desconhecido"
  {
    if code in PorteMap then PorteMap[code] else "Desconhecido"
  }

  /** Each known code decodes the same with or without its leading zero, and
      only the eight listed codes decode to a known class. */
  lemma PorteDecoding(d: string)
    requires d in {"0", "1", "3", "5"}
    ensures PorteText(Zfill(d, 2)) == PorteText(d) != "Desconhecido"
    ensures PorteText("0" + d) == PorteText(d)
  {
    assert Zfill(d, 2) == "0" + d;
    if d == "0" {
      assert "0" + d == "00";
    } else if d == "1" {
      assert "0" + d == "01";
    } else if d == "3" {
      assert "0" + d == "03";
    } else {
      assert "0" + d == "05";
    }
  }

  lemma PorteUnknown(code: string)
    ensures PorteText(code) == "Desconhecido" <==> code !in PorteMap
  {
  }

  // ---------------------------------------------------------------------------
  // The base (lines 67-78)

  /** Lines 72 and 77 for one row: the CNPJ reduced to its digits, and the
      root taken from its first eight. */
  function NormalizeCnpj(r: Record): (n: Record)
    ensures n.Keys == r.Keys + {"cnpj"} + (if |Digits(TextOf(Get(r, "cnpj")))| >= 8 then {"cnpj_basico"} else {})
  {
    var d := Digits(TextOf(Get(r, "cnpj")));
    if |d| >= 8 then r["cnpj" := Str(d)]["cnpj_basico" := Str(d[..8])] else r["cnpj" := Str(d)]
  }

  predicate HasFullCnpj(r: Record) {
    |Digits(TextOf(Get(r, "cnpj")))| == 14
  }

  /** Lines 72-73 and 77: the rows with a fourteen-digit CNPJ, normalised. */
  function FullCnpjRows(rows: seq<Record>): (kept: seq<Record>)
    ensures |kept| <= |rows|
    ensures forall i :: 0 <= i < |kept| ==> BaseShaped(kept[i])
  {
    var kept := MapSeq(Filter(rows, HasFullCnpj), NormalizeCnpj);
    assert forall i :: 0 <= i < |kept| ==> BaseShaped(kept[i]) by {
      forall i | 0 <= i < |kept| ensures BaseShaped(kept[i]) {
        var f := Filter(rows, HasFullCnpj);
        var d := Digits(TextOf(Get(f[i], "cnpj")));
        assert HasFullCnpj(f[i]);
        assert kept[i] == f[i]["cnpj" := Str(d)]["cnpj_basico" := Str(d[..8])];
      }
    }
    kept
  }

  /** A base row is kept exactly when its CNPJ has fourteen digits, however
      it is punctuated, and it is kept with those digits. */
  lemma FullCnpjRowsKeeps(rows: seq<Record>, x: Record)
    ensures x in rows && HasFullCnpj(x) ==> NormalizeCnpj(x) in FullCnpjRows(rows)
    ensures forall n :: n in FullCnpjRows(rows) ==>
              exists y :: y in rows && HasFullCnpj(y) && n == NormalizeCnpj(y)
  {
    MapFilterMembership(rows, HasFullCnpj, NormalizeCnpj, x);
  }

  /** Lines 69-78: no `cnpj` column is an error; otherwise the normalised
      rows, or an error when none is left. `inputName` is the file name of
      the base, which the first error quotes. */
  function PrepareBase(inputName: string, columns: set<string>, rows: seq<Record>): (r: Result<seq<Record>>)
    ensures "cnpj" !in columns ==> r.Err? && |r.message| > |inputName| + 2
                                   && r.message[..|inputName| + 2] == "'" + inputName + "'"
    ensures r.Ok? ==> |r.value| > 0 && |r.value| <= |rows|
    ensures r.Ok? ==> forall i :: 0 <= i < |r.value| ==> BaseShaped(r.value[i])
    ensures r.Err? <==> "cnpj" !in columns || forall x :: x in rows ==> !HasFullCnpj(x)
  {
    if "cnpj" !in columns then
      var quoted := "'" + inputName + "'";
      var m := quoted + " precisa ter a coluna 'cnpj' (14 dígitos).";
      assert m[..|quoted|] == quoted;
      Err(m)
    else
      var kept := FullCnpjRows(rows);
      FullCnpjRowsEmpty(rows);
      if |kept| == 0 then Err("A base de entrada ficou vazia após normalizar CNPJ (14 dígitos).")
      else Ok(kept)
  }

  /** No row is kept exactly when no row has a fourteen-digit CNPJ. */
  lemma FullCnpjRowsEmpty(rows: seq<Record>)
    ensures |FullCnpjRows(rows)| == 0 <==> forall x :: x in rows ==> !HasFullCnpj(x)
  {
    var kept := FullCnpjRows(rows);
    if |kept| == 0 {
      forall x | x in rows ensures !HasFullCnpj(x) {
        FullCnpjRowsKeeps(rows, x);
      }
    } else {
      FullCnpjRowsKeeps(rows, kept[0]);
      assert kept[0] in kept;
      var y :| y in rows && HasFullCnpj(y) && kept[0] == NormalizeCnpj(y);
    }
  }

  /** A prepared base row: a fourteen-digit CNPJ and its root. */
  predicate BaseShaped(r: Record) {
    && "cnpj" in r && "cnpj_basico" in r
    && r["cnpj"].Str? && |r["cnpj"].text| == 14 && AllDigits(r["cnpj"].text)
    && r["cnpj_basico"] == Str(r["cnpj"].text[..8])
  }

  /** The set of roots to look for (line 78). */
  function Targets(base: seq<Record>): (ts: set<string>)
    ensures forall i :: 0 <= i < |base| ==> TextOf(Get(base[i], "cnpj_basico")) in ts
  {
    set i | 0 <= i < |base| :: TextOf(Get(base[i], "cnpj_basico"))
  }

  // ---------------------------------------------------------------------------
  // Company rows (lines 101-159)

  /** The used columns of one company row. */
  datatype EmpRow = EmpRow(
    cnpjBasico: string,
    razaoSocial: string,
    qualificacao: string,
    capitalSocial: string,
    porte: string)

  function Basico(e: EmpRow): string {
    e.cnpjBasico
  }

  function InTargets(targets: set<string>): EmpRow -> bool {
    (e: EmpRow) => e.cnpjBasico in targets
  }

  /** `hits`: per chunk, the rows whose root is a target (line 116-118). */
  function Hits(chunks: seq<seq<EmpRow>>, targets: set<string>): (h: seq<EmpRow>)
    ensures forall i :: 0 <= i < |h| ==> h[i].cnpjBasico in targets
    decreases |chunks|
  {
    if |chunks| == 0 then [] else Filter(chunks[0], InTargets(targets)) + Hits(chunks[1..], targets)
  }

  /** Chunking does not matter: the hits are the target rows of all
      chunks together. */
  lemma {:induction false} HitsIgnoreChunking(chunks: seq<seq<EmpRow>>, targets: set<string>)
    ensures Hits(chunks, targets) == Filter(Flatten(chunks), InTargets(targets))
    decreases |chunks|
  {
    if |chunks| > 0 {
      HitsIgnoreChunking(chunks[1..], targets);
      FilterAppend(chunks[0], Flatten(chunks[1..]), InTargets(targets));
    }
  }

  /** Line 154: the hits deduplicated by root, the first kept. */
  function CompanyIndex(hits: seq<EmpRow>): (emp: seq<EmpRow>)
    ensures DistinctKeys(emp, Basico)
    ensures KeySet(emp, Basico) == KeySet(hits, Basico)
    ensures Subseq(emp, hits)
  {
    FirstOccurrencesProperties(hits, Basico);
    Dedupe(hits, Basico)
  }

  /** A hit whose root has not appeared before is the one kept. */
  lemma CompanyIndexFirstWins(hits: seq<EmpRow>, j: nat)
    requires j < |hits| && hits[j].cnpjBasico !in KeySet(hits[..j], Basico)
    ensures hits[j] in CompanyIndex(hits)
  {
    FirstOccurrenceKept(hits, Basico, j);
  }

  /** Line 159: the stripped code looked up; an unknown one gives `""`. */
  function QualText(qual: map<string, string>, code: string): (t: string)
    ensures Strip(code) in qual ==> t == qual[Strip(code)]
    ensures Strip(code) !in qual ==> t == ""
  {
    if Strip(code) in qual then qual[Strip(code)] else ""
  }

  /** Surrounding whitespace never changes the decoded qualification. */
  lemma QualTextStripped(qual: map<string, string>, code: string)
    ensures QualText(qual, Strip(code)) == QualText(qual, code)
  {
    StripIdempotent(code);
  }

  // ---------------------------------------------------------------------------
  // The join (lines 122-162)

  /** The columns the enrichment adds. */
  const Enrichment: set<string> := {"razao_social", "porte_empresa", "porte_empresa_txt",
                                    "capital_social", "qualificacao_responsavel",
                                    "qualificacao_responsavel_txt"}

  /** The six added cells of one joined row. */
  datatype Company = Company(
    razaoSocial: Field,
    porte: Field,
    porteTxt: Field,
    capitalSocial: Field,
    qualificacao: Field,
    qualificacaoTxt: Field)

  /** A base row with the company columns laid over it. */
  datatype JoinedRow = JoinedRow(base: Record, company: Company)

  /** The company row with a given root, if any. */
  function FindCompany(emp: seq<EmpRow>, basico: string): (r: Option<EmpRow>)
    ensures r.Some? ==> r.value in emp && r.value.cnpjBasico == basico
    ensures r.None? <==> forall i :: 0 <= i < |emp| ==> emp[i].cnpjBasico != basico
  {
    if |emp| == 0 then None
    else if emp[0].cnpjBasico == basico then Some(emp[0])
    else FindCompany(emp[1..], basico)
  }

  /** With distinct roots the row found is the only one with that root. */
  lemma FindCompanyUnique(emp: seq<EmpRow>, i: nat)
    requires DistinctKeys(emp, Basico) && i < |emp|
    ensures FindCompany(emp, emp[i].cnpjBasico) == Some(emp[i])
  {
    var r := FindCompany(emp, emp[i].cnpjBasico);
    var k :| 0 <= k < |emp| && emp[k] == r.value;
    assert Basico(emp[k]) == Basico(emp[i]);
  }

  function AllCells(cell: Field): Company {
    Company(cell, cell, cell, cell, cell, cell)
  }

  /** The added cells for one base row: the company's data with the size
      class and qualification decoded, or NaN everywhere for a base row no
      company row matched. */
  function Added(found: Option<EmpRow>, qual: map<string, string>): (cells: Company)
    ensures found.None? ==> cells == AllCells(Missing)
    ensures found.Some? ==> && cells.razaoSocial == Str(found.value.razaoSocial)
                            && cells.porteTxt == Str(PorteText(found.value.porte))
                            && cells.qualificacaoTxt == Str(QualText(qual, found.value.qualificacao))
                            && cells.porte == Str(found.value.porte)
                            && cells.capitalSocial == Str(found.value.capitalSocial)
                            && cells.qualificacao == Str(found.value.qualificacao)
  {
    match found
    case None => AllCells(Missing)
    case Some(e) =>
      Company(Str(e.razaoSocial), Str(e.porte), Str(PorteText(e.porte)), Str(e.capitalSocial),
              Str(e.qualificacao), Str(QualText(qual, e.qualificacao)))
  }

  /** The left join, row by row (line 162). */
  function Enrich(emp: seq<EmpRow>, qual: map<string, string>): Record -> JoinedRow {
    (b: Record) => JoinedRow(b, Added(FindCompany(emp, TextOf(Get(b, "cnpj_basico"))), qual))
  }

  /** Lines 124-130: no company row matched, every added column is `""`. */
  function Blank(b: Record): JoinedRow {
    JoinedRow(b, AllCells(Str("")))
  }

  /** The joined table: blank columns when nothing matched at all,
      otherwise the left join against the deduplicated company rows. */
  function Joined(base: seq<Record>, chunks: seq<seq<EmpRow>>, qual: map<string, string>): (out: seq<JoinedRow>)
    ensures |out| == |base|
    ensures forall i :: 0 <= i < |out| ==> out[i].base == base[i]
  {
    var hits := Hits(chunks, Targets(base));
    if hits == [] then MapSeq(base, Blank)
    else MapSeq(base, Enrich(CompanyIndex(hits), qual))
  }

  /** When no company row matched any target, every added column is empty
      text. */
  lemma JoinedNoHits(base: seq<Record>, chunks: seq<seq<EmpRow>>, qual: map<string, string>, i: nat)
    requires i < |base| && Hits(chunks, Targets(base)) == []
    ensures Joined(base, chunks, qual)[i].company == AllCells(Str(""))
  {
  }

  /** Otherwise a base row gets the data of the first company row with its
      root, or NaN in every added column when there is none. */
  lemma JoinedMatch(base: seq<Record>, chunks: seq<seq<EmpRow>>, qual: map<string, string>, i: nat)
    requires i < |base| && Hits(chunks, Targets(base)) != []
    ensures var hits := Hits(chunks, Targets(base));
            var found := FindCompany(CompanyIndex(hits), TextOf(Get(base[i], "cnpj_basico")));
            var o := Joined(base, chunks, qual)[i];
            && (found.None? ==> o.company == AllCells(Missing))
            && (found.Some? ==>
                  && found.value in hits
                  && found.value.cnpjBasico == TextOf(Get(base[i], "cnpj_basico"))
                  && o.company.razaoSocial == Str(found.value.razaoSocial)
                  && o.company.porteTxt == Str(PorteText(found.value.porte))
                  && o.company.qualificacaoTxt == Str(QualText(qual, found.value.qualificacao)))
  {
    var hits := Hits(chunks, Targets(base));
    SubseqMembers(CompanyIndex(hits), hits);
  }

  /** A base row whose root some target company row carries is always
      matched. */
  lemma TargetRowMatched(base: seq<Record>, chunks: seq<seq<EmpRow>>, i: nat, e: EmpRow)
    requires i < |base| && e in Flatten(chunks) && e.cnpjBasico == TextOf(Get(base[i], "cnpj_basico"))
    ensures var hits := Hits(chunks, Targets(base));
            hits != [] && FindCompany(CompanyIndex(hits), e.cnpjBasico).Some?
  {
    var targets := Targets(base);
    HitsIgnoreChunking(chunks, targets);
    FilterMembership(Flatten(chunks), InTargets(targets), e);
    var hits := Hits(chunks, targets);
    var emp := CompanyIndex(hits);
    var j :| 0 <= j < |hits| && hits[j] == e;
    assert Basico(hits[j]) in KeySet(hits, Basico);
    KeySetIff(emp, Basico, e.cnpjBasico);
  }

  // ---------------------------------------------------------------------------
  // Output (lines 165-197)

  const Passthrough: seq<string> := ["nome", "nome_fantasia", "endereco", "cnae_fiscal_principal",
                                     "cnaes_secundarios", "municipio", "uf"]

  const Contacts: seq<string> := ["email", "ddd_1", "telefone_1", "ddd_2", "telefone_2", "fax",
                                  "telefone_1_full", "telefone_2_full", "telefones_norm"]

  function Present(cols: seq<string>, columns: set<string>): (r: seq<string>)
    ensures forall c :: c in r <==> c in cols && c in columns
  {
    if |cols| == 0 then []
    else (if cols[0] in columns then [cols[0]] else []) + Present(cols[1..], columns)
  }

  /** `cols_prefer` (lines 175-182): the company name and CNPJ first, the
      pass-through columns the table has, the company columns, then the
      contact columns the table has. */
  function ColsPrefer(columns: set<string>): (cols: seq<string>)
    ensures |cols| >= 2 && cols[0] == "razao_social" && cols[1] == "cnpj"
    ensures forall c :: c in Enrichment ==> c in cols
    ensures forall c :: c in cols <==>
              c in Enrichment || c == "cnpj" || (c in columns && (c in Passthrough || c in Contacts))
  {
    var company := ["porte_empresa", "porte_empresa_txt", "capital_social", "qualificacao_responsavel",
                    "qualificacao_responsavel_txt"];
    var p := Present(Passthrough, columns);
    var k := Present(Contacts, columns);
    var cols := ["razao_social", "cnpj"] + p + company + k;
    assert forall c :: c in cols <==> c in ["razao_social", "cnpj"] || c in p || c in company || c in k;
    cols
  }

  /** One column of a joined row: a company column from the join, another
      column from the base, and `""` for a preferred column the table
      lacks (lines 185-187). */
  function Cell(j: JoinedRow, c: string): Field {
    if c == "razao_social" then j.company.razaoSocial
    else if c == "porte_empresa" then j.company.porte
    else if c == "porte_empresa_txt" then j.company.porteTxt
    else if c == "capital_social" then j.company.capitalSocial
    else if c == "qualificacao_responsavel" then j.company.qualificacao
    else if c == "qualificacao_responsavel_txt" then j.company.qualificacaoTxt
    else if c in j.base then j.base[c]
    else Str("")
  }

  /** A written row: one cell per preferred column, in order. */
  type OutRow = seq<Field>

  /** Line 192 for one row: the row cut down to the preferred columns. */
  function ProjectRow(cols: seq<string>, j: JoinedRow): (p: OutRow)
    ensures |p| == |cols|
    ensures forall k :: 0 <= k < |cols| ==> p[k] == Cell(j, cols[k])
  {
    seq(|cols|, k requires 0 <= k < |cols| => Cell(j, cols[k]))
  }

  function Project(cols: seq<string>): JoinedRow -> OutRow {
    (j: JoinedRow) => ProjectRow(cols, j)
  }

  function At(p: OutRow, k: nat): Field {
    if k < |p| then p[k] else Missing
  }

  /** The CNPJ of a written row, its second column. */
  function CnpjOf(p: OutRow): string {
    TextOf(At(p, 1))
  }

  /** Sort by `razao_social`, then `cnpj`, with empty (NaN) cells last. */
  function RazaoKey(p: OutRow): SortKey {
    [At(p, 0), At(p, 1)]
  }

  /** Lines 190-195: project, drop repeated CNPJs keeping the first, sort. */
  function Finish(out: seq<JoinedRow>, cols: seq<string>): (saida: seq<OutRow>)
    ensures SortedBy(saida, RazaoKey)
    ensures multiset(saida) == multiset(Dedupe(MapSeq(out, Project(cols)), CnpjOf))
  {
    SortBy(Dedupe(MapSeq(out, Project(cols)), CnpjOf), RazaoKey)
  }

  /** Two positions of a permutation come from two positions of the
      original. */
  lemma MultisetTwoPositions<T>(a: seq<T>, b: seq<T>, i: nat, j: nat)
    requires multiset(a) == multiset(b) && i < j < |a|
    ensures exists p, q :: 0 <= p < |b| && 0 <= q < |b| && p != q && b[p] == a[i] && b[q] == a[j]
  {
    var p :| 0 <= p < |b| && b[p] == a[i] by {
      assert a[i] in multiset(a);
    }
    if a[i] == a[j] {
      var restA := a[..i] + a[i + 1..];
      var restB := b[..p] + b[p + 1..];
      MultisetRemoveAt(a, i);
      MultisetRemoveAt(b, p);
      RemoveAtIndex(a, i, j - 1);
      assert a[j] in multiset(restA);
      assert multiset(a)[a[j]] == multiset(restA)[a[j]] + 1;
      assert multiset(b)[a[j]] == multiset(restB)[a[j]] + 1;
      assert a[j] in multiset(restB);
      var q' :| 0 <= q' < |restB| && restB[q'] == a[j];
      RemoveAtIndex(b, p, q');
      var q := if q' < p then q' else q' + 1;
      assert b[q] == a[j];
    } else {
      var q :| 0 <= q < |b| && b[q] == a[j] by {
        assert a[j] in multiset(a);
      }
    }
  }

  /** Taking one element out of a sequence takes it out of its multiset. */
  lemma MultisetRemoveAt<T>(s: seq<T>, k: nat)
    requires k < |s|
    ensures multiset(s) == multiset(s[..k] + s[k + 1..]) + multiset{s[k]}
  {
    assert s == s[..k] + [s[k]] + s[k + 1..];
  }

  /** Where the elements after the removed one moved to. */
  lemma RemoveAtIndex<T>(s: seq<T>, k: nat, m: nat)
    requires k < |s| && m < |s| - 1
    ensures (s[..k] + s[k + 1..])[m] == s[if m < k then m else m + 1]
  {
  }

  /** No CNPJ is written twice. */
  lemma FinishDistinct(out: seq<JoinedRow>, cols: seq<string>)
    ensures DistinctKeys(Finish(out, cols), CnpjOf)
  {
    var projected := MapSeq(out, Project(cols));
    var deduped := Dedupe(projected, CnpjOf);
    FirstOccurrencesProperties(projected, CnpjOf);
    var saida := Finish(out, cols);
    forall i, j | 0 <= i < j < |saida| ensures CnpjOf(saida[i]) != CnpjOf(saida[j]) {
      MultisetTwoPositions(saida, deduped, i, j);
    }
  }

  /** Every written row has one cell per preferred column. */
  lemma FinishWidth(out: seq<JoinedRow>, cols: seq<string>)
    ensures forall p :: p in Finish(out, cols) ==> |p| == |cols|
  {
    var projected := MapSeq(out, Project(cols));
    var deduped := Dedupe(projected, CnpjOf);
    FirstOccurrencesProperties(projected, CnpjOf);
    SubseqMembers(deduped, projected);
    forall p | p in Finish(out, cols) ensures |p| == |cols| {
      assert p in multiset(Finish(out, cols));
      assert p in deduped;
      var i :| 0 <= i < |projected| && projected[i] == p;
    }
  }

  /** Every CNPJ of the joined table is written. */
  lemma FinishKeepsEveryCnpj(out: seq<JoinedRow>, cols: seq<string>)
    ensures KeySet(Finish(out, cols), CnpjOf) == KeySet(MapSeq(out, Project(cols)), CnpjOf)
  {
    var projected := MapSeq(out, Project(cols));
    FirstOccurrencesProperties(projected, CnpjOf);
    KeySetOfPermutation(Finish(out, cols), Dedupe(projected, CnpjOf), CnpjOf);
  }

  /** Rows whose company name is NaN, because nothing matched, come after
      every row with a name. */
  lemma MissingNamesLast(saida: seq<OutRow>)
    requires SortedBy(saida, RazaoKey)
    ensures forall i, j :: 0 <= i < j < |saida| && At(saida[i], 0) == Missing ==> At(saida[j], 0) == Missing
  {
    forall i, j | 0 <= i < j < |saida| && At(saida[i], 0) == Missing
      ensures At(saida[j], 0) == Missing
    {
      assert KeyLe(RazaoKey(saida[i]), RazaoKey(saida[j]));
    }
  }

  /** The whole merge: the prepared base, the joined table, and the written
      rows under the preferred columns, or the error of the base. */
  function MergeEmpresas(inputName: string, columns: set<string>, base: seq<Record>, chunks: seq<seq<EmpRow>>,
                         qual: map<string, string>): (r: Result<(seq<string>, seq<OutRow>)>)
    ensures "cnpj" !in columns ==> r.Err?
    ensures r.Ok? ==> && |r.value.0| >= 2 && r.value.0[0] == "razao_social" && r.value.0[1] == "cnpj"
                      && SortedBy(r.value.1, RazaoKey)
    ensures r.Err? <==> "cnpj" !in columns || PrepareBase(inputName, columns, base).Err?
    ensures r.Ok? ==> && DistinctKeys(r.value.1, CnpjOf)
                      && KeySet(r.value.1, CnpjOf)
                         == KeySet(MapSeq(Joined(PrepareBase(inputName, columns, base).value, chunks, qual), Project(r.value.0)), CnpjOf)
  {
    var prepared :- PrepareBase(inputName, columns, base);
    var out := Joined(prepared, chunks, qual);
    var cols := ColsPrefer(columns + {"cnpj_basico"} + Enrichment);
    FinishDistinct(out, cols);
    FinishKeepsEveryCnpj(out, cols);
    Ok((cols, Finish(out, cols)))
  }
}
