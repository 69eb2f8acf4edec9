# casa_aberta in Dafny

A model of the casa_aberta pipeline. The pipeline turns the open company
registry of the Brazilian Receita Federal into a map of the active companies
of one or more cities. It has five steps:

1. **City filter** (`filtro_cidades_ativas.py`, module `Establishments`).
   It reads the establishment files chunk by chunk. It keeps the active rows
   of the target municipalities, builds the fourteen-digit CNPJ and a
   one-line address, and drops the CNPJs already written by an earlier
   chunk. Two rows with the same CNPJ in one chunk are both written (see
   "## Findings").
2. **Activity filter** (`filtra_por_cnae.py`, module `Cnae`). It keeps the
   rows whose principal or secondary CNAE code was requested, tags each row
   with how it matched, and sorts them.
3. **Company enrichment** (`merge_com_empresas.py`, module `Empresas`). It
   joins the base to the company file by the eight-digit CNPJ root and
   decodes the size class and the qualification of the person in charge.
4. **Partners** (`merge_socios.py`, module `Socios`). It joins the partner
   rows to the base, with the type filter, the code decoding and the
   `--max-n` stop rule.
5. **Map.**
   - `mapa.py` covers address normalisation, geocoding candidates, checking
     each geocoder answer, and the address cache. Its modules are
     `Normalize`, `Candidates`, `Validation`, `Resolver` and `Geocache`.
   - `geocache_to_json.py` exports the cache as map features (module
     `CacheExport`).
   - `sizing_chunks.py` suggests a chunk size from the free memory (module
     `Sizing`).

Shared pieces:

- `Basics`: `Option` and `Result`.
- `Text`: character classes, `strip`, `upper`, `zfill`, digit extraction and
  code-point string order.
- `Seqs`: filtering, first-occurrence dedupe (pandas `drop_duplicates`),
  subsequences, key sets, and a sort by a key with empty cells last (pandas
  `sort_values`).

How the model represents the program:

- A CSV table is a sequence of rows: either a datatype with the columns used,
  or a map from column name to cell.
- A cell the left join leaves empty is `Field.Missing`, which stands for
  pandas' NaN.
- A chunked read is a sequence of chunks, and `Seqs.Flatten` joins them end
  to end.
- The geocoder is an oracle: a function from a candidate and the view box to
  a reply.
- Reading `/proc/meminfo` and the memory-probe library are parameters.
- Coordinates are exact reals.

## Model

| member | source | states |
|---|---|---|
| Establishments.FoldChar | filtro_cidades_ativas.py:19 | the accent-stripping of one character yields ASCII only and leaves an ASCII character as it is |
| Establishments.Latin1Fold | filtro_cidades_ativas.py:19 | the folded text is ASCII, and ASCII text is unchanged |
| Establishments.CollapseRuns | filtro_cidades_ativas.py:20 | after `\s+` becomes one space, no two whitespace characters are adjacent and every whitespace left is a plain space; ASCII stays ASCII; a non-empty text stays non-empty and keeps whether it starts with whitespace |
| Establishments.CollapseRunsKeeps | filtro_cidades_ativas.py:20 | text whose only whitespace is isolated single spaces is left unchanged |
| Establishments.NormTxt | filtro_cidades_ativas.py:16-21 | the result is ASCII, has no lower-case letter, no leading or trailing whitespace, and no whitespace except single spaces |
| Establishments.NormTxtIdempotent | filtro_cidades_ativas.py:16-21 | normalising a normalised name changes nothing, so names compared after `norm_txt` compare the same when normalised again |
| Establishments.CnpjFull | filtro_cidades_ativas.py:33-34 | parts within their widths (8, 4, 2) give a fourteen-character CNPJ |
| Establishments.CnpjFullParts | filtro_cidades_ativas.py:33-34 | for digit parts the CNPJ is all digits and its three slices are the zero-filled root, order and check digits, each ending in the part as given |
| Establishments.CnpjFullRoundTrip | filtro_cidades_ativas.py:33-34 | cutting a fourteen-character CNPJ at 8 and 12 and rebuilding it gives it back |
| Establishments.CnpjFullInjective | filtro_cidades_ativas.py:33-34 | two digit-part triples that build the same CNPJ have the same zero-filled parts |
| Establishments.FirstNonBlank | filtro_cidades_ativas.py:43-44 | `a.strip() or b.strip()` is one of the two stripped values, and is empty only when both are |
| Establishments.Resolve | filtro_cidades_ativas.py:37-45 | the CEP kept for the address is digits only |
| Establishments.CepText | filtro_cidades_ativas.py:54-55 | a non-empty CEP gives text starting with `C` of `CEP` and ending in the CEP's last digit |
| Establishments.MontaEndereco | filtro_cidades_ativas.py:36-56 | the address never starts or ends with a space, hyphen or comma |
| Establishments.EmptyFieldsEmptyAddress | filtro_cidades_ativas.py:46-56 | a row with no address field and no CEP digit gives the empty address |
| Establishments.SameResolvedSameAddress | filtro_cidades_ativas.py:36-56 | the address depends on the row only through the stripped values and the CEP digits |
| Establishments.CityOverrideWins | filtro_cidades_ativas.py:43 | a non-blank typed city makes the row's own municipality irrelevant; a blank one behaves as if the row's municipality had been typed |
| Establishments.StateOverrideWins | filtro_cidades_ativas.py:44 | the same for the state |
| Establishments.CepDigitsOnly | filtro_cidades_ativas.py:45 | punctuation in the CEP does not change the address |
| Establishments.AddressStartsWithTipo | filtro_cidades_ativas.py:47-56 | a street type that does not begin or end with junk characters begins the address |
| Establishments.AddressEndsWithCep | filtro_cidades_ativas.py:54-56 | a CEP with digits ends the address as `CEP ddddd-ddd` when it has eight digits and as `CEP` and its digits otherwise |
| Establishments.DetectColsEst | filtro_cidades_ativas.py:58-87 | a layout is found exactly for 30 or 31 columns, with one name per column; any other count is an error whose message names the count |
| Establishments.LayoutsDifferByFax | filtro_cidades_ativas.py:64-84 | the 31-column layout is the 30-column one with `ddd_fax` inserted before `fax` |
| Establishments.DisplayOf | filtro_cidades_ativas.py:235 | a known municipality code gives the city as typed; an unknown one gives empty text |
| Establishments.ToOut | filtro_cidades_ativas.py:234-246 | an output row carries the typed city for its code, the typed state, the rebuilt CNPJ, the trade name, both CNAE fields of the input row, and the address built from the row's fields with the typed city and state as overrides |
| Establishments.ShapeChunk | filtro_cidades_ativas.py:220-246 | a shaped chunk is no longer than the chunk and every row carries the typed state |
| Establishments.ShapeChunkSelects | filtro_cidades_ativas.py:220-246 | a row is shaped into the output exactly when its state is the typed one, its municipality is a target and its status is `02` or `2` |
| Establishments.SelectAsWrittenMembers | filtro_cidades_ativas.py:248-252 | each chunk writes only rows of that chunk whose CNPJ was not in `seen` before the run |
| Establishments.WriteChunks | filtro_cidades_ativas.py:254 | each chunk writes exactly the rows selected for it, as a multiset, sorted by name and CNPJ |
| Establishments.AsWrittenAcrossChunks | filtro_cidades_ativas.py:248-252 | two different chunks never write the same CNPJ |
| Establishments.AsWrittenKeepsDuplicateInChunk | filtro_cidades_ativas.py:249 | one chunk holding the same row twice writes it twice |
| Establishments.FirstWinsOverAllChunks | filtro_cidades_ativas.py:248-252 | the corrected selection over all chunks is the first-occurrence dedupe of all rows by CNPJ, whatever the chunking |
| Establishments.FirstWinsDistinct | filtro_cidades_ativas.py:248-252 | from an empty `seen`, the corrected output has distinct CNPJs, the same CNPJs as the input, and is a subsequence of it |
| Establishments.AsWrittenAgreesWithoutInChunkRepeats | filtro_cidades_ativas.py:248-252 | when no chunk repeats a CNPJ, the code as written and the corrected selection write the same rows |
| Cnae.FindCodes | filtra_por_cnae.py:26 | every match of `\d{7}` is seven digits |
| Cnae.Extract7 | filtra_por_cnae.py:23-26 | empty text gives no code; every code found is seven digits |
| Cnae.FindCodesOccur | filtra_por_cnae.py:26 | every code found occurs in the text |
| Cnae.FindCodesOfRun | filtra_por_cnae.py:26 | a run of digits gives its consecutive seven-digit blocks from the left, and a leftover tail shorter than seven digits is dropped |
| Cnae.FourteenDigitsTwoCodes | filtra_por_cnae.py:26 | fourteen digits in a row are read as two codes |
| Cnae.FindCodesSeparated | filtra_por_cnae.py:26 | a non-digit separates: the codes of `a`, a non-digit and `b` are the codes of `a` followed by those of `b` |
| Cnae.Tokens | filtra_por_cnae.py:38-39 | the pieces of `re.split(r"[,\s]+", …)` that line 39 keeps are non-empty and contain no comma or whitespace |
| Cnae.TokensJoinComma | filtra_por_cnae.py:38 | splitting undoes joining with commas |
| Cnae.CodeSet | filtra_por_cnae.py:36-40 | every requested code has seven digits, and every token with exactly seven digits contributes them |
| Cnae.CodeSetEmpty | filtra_por_cnae.py:39-41 | the requested set is empty exactly when no token has seven digits |
| Cnae.ParseCnaes | filtra_por_cnae.py:36-42 | the run aborts exactly when no token has seven digits; otherwise the set is non-empty and all seven-digit codes |
| Cnae.PunctuatedCodeRequested | filtra_por_cnae.py:39-40 | a code written with punctuation, such as `6201-5/01`, is requested by its digits |
| Cnae.CheckColumns | filtra_por_cnae.py:50-53 | the input is accepted exactly when it has all seven required columns; otherwise the missing set is non-empty and holds exactly the required columns absent |
| Cnae.Tag | filtra_por_cnae.py:61-64 | `ambos` when both principal and secondary match, `principal` when only the principal does, `secundario` when the principal does not |
| Cnae.SelectByCnae | filtra_por_cnae.py:55-74 | the output is sorted by name then CNPJ and is a permutation of the selected rows, each tagged |
| Cnae.SelectByCnaeIff | filtra_por_cnae.py:56-58 | a row is written exactly when it is in the input and its principal code is requested or a secondary code is; every written row carries its own tag |
| Cnae.PrincipalNotStripped | filtra_por_cnae.py:56 | a principal code with any non-digit in it never matches, since it is compared as written |
| Cnae.SecondaryListMatches | filtra_por_cnae.py:57 | a comma-separated secondary list matches when any code in it is requested |
| Empresas.PorteText | merge_com_empresas.py:23-33 | a code in `PORTE_MAP` gives its description; any other gives `Desconhecido` |
| Empresas.PorteDecoding | merge_com_empresas.py:23-33 | each one-digit code decodes like its zero-padded form, and not to `Desconhecido` |
| Empresas.PorteUnknown | merge_com_empresas.py:157 | `Desconhecido` exactly for the codes the map lacks |
| Empresas.NormalizeCnpj | merge_com_empresas.py:72-77 | normalising adds `cnpj`, and `cnpj_basico` when at least eight digits remain, and keeps every other column |
| Empresas.FullCnpjRows | merge_com_empresas.py:72-77 | the kept rows are no more than the input, and each has a fourteen-digit CNPJ whose first eight digits are its root |
| Empresas.FullCnpjRowsKeeps | merge_com_empresas.py:72-73 | a row is kept, normalised, exactly when its CNPJ has fourteen digits |
| Empresas.FullCnpjRowsEmpty | merge_com_empresas.py:72-78 | no row survives the normalisation exactly when no input row has a fourteen-digit CNPJ |
| Empresas.PrepareBase | merge_com_empresas.py:67-78 | an error exactly when the `cnpj` column is missing, whose message opens with the quoted file name, or when no row has fourteen digits; otherwise a non-empty base of well-formed rows no longer than the input |
| Empresas.Targets | merge_com_empresas.py:78 | every base row's root is a target |
| Empresas.Hits | merge_com_empresas.py:106-118 | every hit's root is a target |
| Empresas.HitsIgnoreChunking | merge_com_empresas.py:106-118 | the per-chunk hits, concatenated, are the filter of all rows, whatever the chunk size |
| Empresas.CompanyIndex | merge_com_empresas.py:154 | one company row per root, all roots of the hits present, rows in hit order |
| Empresas.CompanyIndexFirstWins | merge_com_empresas.py:154 | the first hit of a root is the one kept |
| Empresas.QualText | merge_com_empresas.py:159 | the stripped code's description, or empty text for an unknown code |
| Empresas.QualTextStripped | merge_com_empresas.py:159 | surrounding whitespace in the code does not change the description |
| Empresas.FindCompany | merge_com_empresas.py:162 | a found company row is in the index with the wanted root; nothing is found exactly when no row has that root |
| Empresas.FindCompanyUnique | merge_com_empresas.py:162 | on an index with distinct roots, the lookup of a row's root finds that row, so the join is many-to-one |
| Empresas.Added | merge_com_empresas.py:157-162 | an unmatched base row gets NaN in every added column; a matched one gets the company name, the raw size code, capital and qualification code, and the decoded size class and qualification |
| Empresas.Joined | merge_com_empresas.py:122-162 | the joined table has one row per base row, in order, with the base row's own cells |
| Empresas.JoinedNoHits | merge_com_empresas.py:122-130 | with no hit at all, every added column of every row is empty text |
| Empresas.JoinedMatch | merge_com_empresas.py:154-162 | with hits, each row gets NaN when its root has no company row, and otherwise the first company row of its root with decoded fields |
| Empresas.TargetRowMatched | merge_com_empresas.py:116-118 | a company row whose root is a base row's root is always found for it |
| Empresas.Present | merge_com_empresas.py:177-181 | the columns kept are exactly those of the list that the table has |
| Empresas.ColsPrefer | merge_com_empresas.py:175-190 | company name then CNPJ come first; all six added columns are present; a column is written exactly when it is added, is `cnpj`, or is a present pass-through or contact column |
| Empresas.ProjectRow | merge_com_empresas.py:192 | a written row has one cell per preferred column, each that column's cell |
| Empresas.Finish | merge_com_empresas.py:190-195 | the output is sorted by company name then CNPJ, and is a permutation of the projected rows deduplicated by CNPJ |
| Empresas.FinishDistinct | merge_com_empresas.py:193 | no CNPJ is written twice |
| Empresas.FinishWidth | merge_com_empresas.py:192 | every written row has one cell per preferred column |
| Empresas.FinishKeepsEveryCnpj | merge_com_empresas.py:192-195 | every CNPJ of the joined table is written |
| Empresas.MissingNamesLast | merge_com_empresas.py:194 | rows without a company name come after all rows with one |
| Empresas.MergeEmpresas | merge_com_empresas.py:67-197 | an error exactly when the base cannot be prepared; otherwise the columns start with company name and CNPJ, and the rows are sorted, with no CNPJ twice and every CNPJ of the joined base present |
| Socios.SoDigitos | merge_socios.py:54-55 | only digits, no longer than the input, and an all-digit input is unchanged |
| Socios.SoDigitosIdempotent | merge_socios.py:54-55 | applying it twice changes nothing |
| Socios.IdentText | merge_socios.py:176-178 | the stripped identifier's type name, or `Desconhecido` |
| Socios.IdentKnown | merge_socios.py:176-178 | the type is known exactly when the stripped identifier is 1, 2 or 3 |
| Socios.IdentStripped | merge_socios.py:176-178 | surrounding whitespace in the identifier does not change the type name |
| Socios.CodeMap | merge_socios.py:74-90 | the codes mapped are exactly the stripped codes of the table's lines |
| Socios.CodeMapLastWins | merge_socios.py:76-90 | a code gets the description of the last line carrying it, stripped for the tables that strip it |
| Socios.PaisText | merge_socios.py:185-187 | with no country table every country is empty text |
| Socios.PaisTextIsLookup | merge_socios.py:185-187 | the country is the stripped code's description, or empty text, as for qualifications |
| Socios.OnlyCode | merge_socios.py:141-142 | only `ALL` gives no code, and every other choice gives a known identifier |
| Socios.OnlyKeepsType | merge_socios.py:170-171 | each choice keeps exactly the rows of its type, `ALL` keeps all, and a kept row's decoded type is the chosen one |
| Socios.OnlyIgnoresPadding | merge_socios.py:170-178 | an identifier of one whitespace character then `2` (such as ` 2`) decodes to Pessoa Física, yet the PF filter drops it |
| Socios.MinColumns | merge_socios.py:119-120 | the narrowed base has root and CNPJ, plus exactly the company fields the base has |
| Socios.BaseMin | merge_socios.py:115-120 | one row per root, and every root of the base with a full CNPJ present |
| Socios.BaseMinRoots | merge_socios.py:115-121 | the target roots are exactly the roots of the full-CNPJ base rows |
| Socios.FindBase | merge_socios.py:193 | a found base row has the wanted root; nothing is found exactly when no row has it |
| Socios.FindBaseTargets | merge_socios.py:165-193 | a base row is found exactly for a target root |
| Socios.ChunkOutJoined | merge_socios.py:165-193 | every written partner row comes from the chunk, has a target root and the chosen type, is joined to the base row of its root, and has digit-only documents |
| Socios.ChunkOutComplete | merge_socios.py:165-193 | every partner row with a target root and the chosen type is written |
| Socios.ReadFile | merge_socios.py:159-162 | the chunks read from one file are a prefix, the count adds their rows, and reading stops early only once the limit is reached |
| Socios.ReadUpTo | merge_socios.py:150-226 | the reference reading: a prefix of all chunks, all of them without a limit, and stopped early only at the limit |
| Socios.ReadUpToLastBelow | merge_socios.py:160-162 | the last chunk read began with the count below the limit |
| Socios.RowCountAppend | merge_socios.py:162 | the count of two runs of chunks is the sum of their counts |
| Socios.ReadFileIsReadUpTo | merge_socios.py:159-162 | one file's loop is the reference reading of its chunks |
| Socios.ReadUpToAppend | merge_socios.py:150-226 | reading two runs of chunks in a row reads the first and, unless it stopped, the second from the new count |
| Socios.ReadFilesIsReadUpTo | merge_socios.py:150-226 | the file loop with its check after each file is the reference reading of all chunks end to end |
| Socios.MaxNStops | merge_socios.py:160-162 | with `--max-n` m, the chunks read are a prefix; stopping early means at least m rows were counted; the last chunk read began below m |
| Socios.NoMaxNReadsAll | merge_socios.py:150-226 | without `--max-n` every chunk of every file is read |
| Socios.MergeSocios | merge_socios.py:111-226 | an error exactly when the base lacks `cnpj`, whose message opens with the file name |
| Socios.OutChunksIgnoresChunking | merge_socios.py:153-219 | the rows written chunk by chunk are those of the whole input at once, whatever the chunk size |
| CacheExport.ReadEntry | geocache_to_json.py:28-30 | a missing column reads as empty text; present columns are read as they are |
| CacheExport.CacheRows | geocache_to_json.py:32-34 | kept rows have both coordinates, one row per raw query, every such query kept, in file order |
| CacheExport.CacheRowsFirstWins | geocache_to_json.py:34 | the first row with coordinates for a query is the one kept |
| CacheExport.ToFeature | geocache_to_json.py:38-51 | a feature is made exactly when the stripped query, latitude and longitude are all non-blank |
| CacheExport.FeatureContents | geocache_to_json.py:38-51 | a feature has no CNPJ; its name, address and query are the same non-blank stripped query of a row, with that row's stripped coordinates |
| CacheExport.FeaturesComplete | geocache_to_json.py:36-51 | every kept row with non-blank fields gives its feature |
| CacheExport.FeaturesInOrder | geocache_to_json.py:36-51 | features come out in the order of the rows: the rows split in two give the first part's features followed by the second part's |
| CacheExport.BlankCoordsSkipped | geocache_to_json.py:32-42 | whitespace-only coordinates pass the filter but give no feature |
| CacheExport.ExportCache | geocache_to_json.py:26-63 | the count of features is at most the count of kept rows, which is at most the rows read; every kept row with non-blank query and coordinates is exported; the hints are the ones given |
| CacheExport.ExportFromKept | geocache_to_json.py:32-51 | each feature's address is the stripped query of a cache row that has coordinates |
| Sizing.Trunc | sizing_chunks.py:95 | `int()` of a real rounds toward zero |
| Sizing.FloorDiv | sizing_chunks.py:97 | `//` is the floor: `q·b ≤ a < (q+1)·b` |
| Sizing.BytesPerRow | sizing_chunks.py:84-86 | the sampled memory divided evenly over the rows, or all of it when no row was read |
| Sizing.Budget | sizing_chunks.py:95 | the budget is the cap or the share of free memory, whichever is smaller |
| Sizing.Clamp | sizing_chunks.py:97-99 | the chunk size is within 10 000 and 300 000, and values in range are unchanged |
| Sizing.RowsInBudget | sizing_chunks.py:97 | the row count is the most rows of at least one byte each that fit the budget |
| Sizing.SuggestChunksize | sizing_chunks.py:88-100 | the suggestion is within 10 000 and 300 000 rows, its budget within the cap, and it returns the row estimate it used |
| Sizing.UnclampedFitsBudget | sizing_chunks.py:95-99 | when the floor is already in range, the chunk size is exactly the most rows that fit the budget |
| Sizing.ChunksizeMonotone | sizing_chunks.py:95-99 | a larger budget never gives a smaller chunk size |
| Sizing.DetectColsLayouts | sizing_chunks.py:67-74 | the sizing script picks the same two layouts by column count as the city filter; its error message differs and is not stated |
| Sizing.DecimalRoundTrip | sizing_chunks.py:55 | reading a number's decimal text gives the number back |
| Sizing.ParseInt | sizing_chunks.py:55 | `int()` of a digit string is its decimal value |
| Sizing.Words | sizing_chunks.py:55 | `split()` gives non-empty words |
| Sizing.WordsOfMeminfoLine | sizing_chunks.py:55 | a line `name number kB` splits into its three words |
| Sizing.AvailableRam | sizing_chunks.py:44-65 | the probe's figure when the probe library is present; 1 GiB when neither the probe nor the file is available |
| Sizing.MemAvailableFirst | sizing_chunks.py:54-55 | a leading `MemAvailable:` line gives its value times 1024, whatever follows |
| Sizing.NoMemAvailableSums | sizing_chunks.py:53-62 | without `MemAvailable:`, the result is the sum of the last MemFree, Buffers and Cached values |
| Text.UpperCharWordClass | mapa.py:148-151 | upper-casing a Latin-1 character keeps its `\w` class, so the `\b` of the prefix pass sees the same word boundaries as in the original text |
| Normalize.NormalizeForGeocode | mapa.py:145-170 | an empty address gives `("", None)`; otherwise the base has no leading or trailing space, comma, semicolon or hyphen, no double space, and any CEP is `ddddd-ddd` or eight digits |
| Normalize.SplitPrefixesOnlyInsertSpaces | mapa.py:150-151 | the street-type pass only inserts spaces: removing spaces gives the same text before and after |
| Normalize.SplitPrefixesAbsent | mapa.py:150-151 | text containing none of the prefixes is unchanged |
| Normalize.SplitPrefixesAppend | mapa.py:150-151 | the prefixes are applied one after the other |
| Normalize.NormalizeKmAbsent | mapa.py:154 | text without `KM` is unchanged |
| Normalize.RemoveCodeBlocksAbsent | mapa.py:157 | text without `/` has no code block to remove |
| Normalize.FindCep | mapa.py:160 | the search returns the leftmost match, and none exactly when no position matches |
| Normalize.FindCepSkips | mapa.py:160 | the search can skip positions not holding `C` |
| Normalize.ExtractCep | mapa.py:159-164 | a found CEP is eight digits or `ddddd-ddd`, and is cut out at the first match; without a match the text is unchanged |
| Normalize.ReplaceDashesKeeps | mapa.py:167 | text before the first hyphen is untouched |
| Normalize.SpaceCommasKeeps | mapa.py:168 | text before the first comma is untouched |
| Normalize.CollapseSpaces | mapa.py:169 | no two spaces are adjacent afterwards, and only empty text becomes empty |
| Normalize.CollapseSpacesKeeps | mapa.py:169 | text without double spaces is unchanged |
| Normalize.CollapseSpacesIdempotent | mapa.py:169 | collapsing twice is collapsing once |
| Normalize.Cleanup | mapa.py:166-169 | the cleaned text has no edge junk and no double space |
| NormalizeExamples.NormalizeExample | mapa.py:145-170 | `RUA A, 123 - CEP 13565-000` normalises to `RUA A, 123` with CEP `13565-000` |
| NormalizeExamples.SplitRuaExample | mapa.py:151 | `RUAABC, 10` becomes `RUA ABC, 10` |
| NormalizeExamples.SplitAvenidaExample | mapa.py:150-151 | the `AV` prefix also splits `AVENIDA`, giving `AV ENIDA X` |
| NormalizeExamples.AvenidaBrasilExample | mapa.py:140-151 | the whole prefix loop turns `AVENIDA BRASIL` into `AV ENIDA BRASIL`: the `AVENIDA` pass leaves it, as a space follows, and the later `AV` pass splits it |
| NormalizeExamples.SplitRodoviaExample | mapa.py:151 | the `ROD` prefix splits `RODOVIA` into `ROD OVIA` |
| Candidates.JsonBodyRoundTrip | mapa.py:226-244 | decoding the JSON string body of any text gives the text back, so the dedupe key loses nothing |
| Candidates.Describe | mapa.py:224-227 | a structured query is described as `dict:` and its JSON text; a free-text one as `str:` and the text |
| Candidates.EntriesSorted | mapa.py:226 | the members of a query's JSON are in strictly increasing key order |
| Candidates.BuildCandidates | mapa.py:229-247 | the candidates have distinct keys, keep the order of the raw list, and keep every key of it |
| Candidates.NoCandidatesWithoutAddress | mapa.py:233-241 | no base and no CEP give no candidate |
| Candidates.EmptyAddressNoCandidates | mapa.py:229-247 | an empty address gives no candidate |
| Candidates.BuildCandidatesKeepsAll | mapa.py:242-247 | when the country does not end in `}`, no candidate is dropped as a duplicate |
| Candidates.RawKeysDistinct | mapa.py:233-241 | the four possible candidates have pairwise different keys |
| Candidates.CandidatesOrder | mapa.py:233-241 | the count is 2 with a base, plus 1 with a CEP, plus 1 with both; the full query comes first, free text last; every query names the city, state and country |
| Validation.NominatimOf | mapa.py:180-184 | a Nominatim box has four numbers |
| Validation.BBoxFromNominatim | mapa.py:180-184 | a box is read exactly when four numbers are there |
| Validation.BBoxRoundTrip | mapa.py:183-184 | reading `[south, north, west, east]` as `(west, south, east, north)` and writing it back loses nothing, in both directions |
| Validation.PointInBboxCorners | mapa.py:186-190 | a point is in the box exactly when it lies between the south-west and north-east corners; no box admits every point |
| Validation.PointInBboxInclusive | mapa.py:186-190 | the corners are inside, and a point inside a box is inside any box containing it |
| Validation.CityLike | mapa.py:192-193 | empty exactly when all four fields are empty, and otherwise one of them |
| Validation.CityLikeFirst | mapa.py:192-193 | the first non-empty of city, town, municipality and village wins |
| Validation.Reason | mapa.py:199-222 | a reason starts with `reject:` exactly when the hit is not accepted |
| Validation.Check | mapa.py:195-222 | a hit is accepted exactly when it is not an administrative boundary, is in Brazil, matches the city and state, has coordinates, and lies in the box |
| Validation.ValidateHit | mapa.py:195-222 | the hit is accepted exactly when the reason is `ok` |
| Validation.BoundaryRejectedRegardless | mapa.py:199-200 | an administrative boundary is rejected whatever its address and position |
| Validation.ValidateHitChecks | mapa.py:195-222 | `(True, "ok")` exactly when every check passes; the country, mismatch and coordinate rejections carry the texts the script writes, in order |
| Validation.MismatchEitherRejects | mapa.py:209-212 | a city mismatch or a state mismatch alone rejects the hit |
| Validation.NoBoxAcceptsParsed | mapa.py:187-222 | without a box, a matching hit with coordinates is accepted |
| Resolver.RenderDistinguishes | mapa.py:265-274 | the logged result is `ok` only for an accepted hit and `no_hit` only for no hit |
| Resolver.ViewBoxOf | mapa.py:253-256 | a view box is passed exactly when there is a city box |
| Resolver.ViewBoxSameArea | mapa.py:255-256 | the view box covers the same area as the city box |
| Resolver.StatusFor | mapa.py:264-272 | a try is ok exactly when the geocoder found a hit and the hit passed validation |
| Resolver.GeocodeWithCandidates | mapa.py:249-277 | one attempt per candidate tried, in order; every attempt before the last failed; stopping early means the last one succeeded; no coordinates exactly when no attempt succeeded |
| Resolver.GeocodeStopsAtFirstOk | mapa.py:258-270 | the loop stops at the first accepted candidate and returns its coordinates |
| Resolver.GeocodeTriesAllWhenNoneOk | mapa.py:258-277 | when no candidate is accepted, all are tried and the coordinates are empty |
| Resolver.ExceptionContinues | mapa.py:273-275 | a geocoder exception is logged with its class name and the next candidate is tried |
| Resolver.FailureReasonFirst | mapa.py:330-334 | the failure reason is the first result other than `no_hit`, or `no_hit_all` when every try found nothing |
| Resolver.FailureReasonNotOk | mapa.py:330-334 | a failed address never has `ok` as its reason |
| Geocache.FormatCnpj | mapa.py:44-46 | the formatted CNPJ has 18 characters with `.`, `.`, `/` and `-` at positions 2, 6, 10 and 15 |
| Geocache.FormatCnpjDigits | mapa.py:44-46 | the digits of the formatted CNPJ are the first fourteen of the zero-filled digits of the input |
| Geocache.FormatCnpjRoundTrip | mapa.py:41-46 | removing the punctuation from a formatted fourteen-digit CNPJ gives it back |
| Geocache.Cell | mapa.py:130-132 | a missing cache column reads as empty text |
| Geocache.LoadOrInit | mapa.py:127-134 | no file gives an empty cache; otherwise the defaulted rows, one per query, the first kept |
| Geocache.LoadKeepsEveryQuery | mapa.py:133 | every query of the file is in the loaded cache, and every loaded row is a row of the file |
| Geocache.SaveGeocache | mapa.py:136-137 | the saved rows have distinct queries, the same queries as the cache, and a cache without repeats is saved as it is |
| Geocache.PendingMembers | mapa.py:305 | every pending query is a base query not in the cache |
| Geocache.PendingDistinctAndBounded | mapa.py:305-308 | pending queries are distinct; a limit keeps the first `max_geocode` of the unlimited list (a negative one drops the last entries, as a Python slice does), so at most `max_geocode` remain |
| Geocache.PendingInOrder | mapa.py:305 | without a limit the pending list is the uncached base queries, each at its first appearance, in base order: a subsequence of them |
| Geocache.PendingComplete | mapa.py:305 | without a limit, every base query not in the cache is pending |
| Geocache.ProcessQuery | mapa.py:315-341 | a query fails exactly when its coordinates are empty, and a failure names the query and a reason other than `ok` |
| Geocache.RunWith | mapa.py:311-357 | the new cache is the old one followed by one row per pending query, in order, failures included with empty coordinates |
| Geocache.RunCacheKeys | mapa.py:341-357 | the queries of the new cache are the old ones plus the pending ones |
| Geocache.RunKeepsDistinct | mapa.py:305-357 | a cache with distinct queries stays so after the pass |
| Geocache.RerunNothingPending | mapa.py:305 | after a full pass, a second pass has nothing pending |
| Geocache.FailuresListed | mapa.py:335-339 | the failure log lists exactly the failures of the processed queries |
| Geocache.FailedQueryCached | mapa.py:341-357 | a failed query is cached with empty coordinates and is not retried on the next run |
| Geocache.CacheMap | mapa.py:362 | the lookup has exactly the cache's queries as keys |
| Geocache.CacheMapOfDistinct | mapa.py:362 | on a cache without repeats, each query maps to its own coordinates |
| Geocache.EveryQueryResolved | mapa.py:362-363 | after a full pass every base query has an entry in the lookup |

## Left out

- Reading and writing files: CSV parsing, encodings, `on_bad_lines="skip"`,
  the C/Python engine fallback of `iter_chunks_csv`, and appending to the
  output with a single header. Tables arrive as sequences of rows and leave
  as values.
- Globs, missing files and the error a file raises mid-read: the per-file
  `try/except` of every script and the skipped-chunk counter of the city
  filter are not modelled, so every file is read to the end.
- `load_municipios` and the matching of typed cities against the municipality
  table (filtro_cidades_ativas.py:89-112 and 155-176). The target code set
  and the code-to-name map are inputs of `ShapeChunk`.
- Establishments.NormTxt: takes the accent-stripping step as a parameter. It
  is given concretely only for Latin-1 (`Latin1Fold`), because Unicode NFKD
  tables are not available.
- `\d`, `\s`, `\w` (and so `\b`) and `str.upper` are modelled on ASCII and
  Latin-1 only. Python also treats other Unicode digits, spaces and letters
  this way. `\w` also covers U+039C and U+0178, the two letters outside
  Latin-1 that upper-casing Latin-1 text produces (Text.UpperCharWordClass),
  so the `\b` of the normaliser is exact on upper-cased Latin-1 input.
- Normalize.SplitPrefixesOnlyInsertSpaces, Normalize.NormalizeKmAbsent: hold
  for the model's `\b`, which ends a word at any other code point above
  U+00FF; on text with such letters the model may split where Python does
  not.
- Validation.ValidateHitChecks: an answer whose `country_code` is an explicit
  null raises `AttributeError` in the script (mapa.py:202), which the loop
  logs as `exception:AttributeError` (mapa.py:273-274). The model reads a null
  code like an absent one and logs `reject:country=`. Whether the candidate is
  accepted is the same either way, but the attempt log and the failure reason
  (Resolver.FailureReasonFirst) differ.
- The network: Nominatim, the rate limiter, `fetch_city_bbox`'s request and
  the per-call timeout. The geocoder is an oracle.
- The debug attempts file, the periodic flush every 50 queries
  (mapa.py:343-351) and the progress prints. Flushing is not modelled
  because it changes no final result.
- Geocache.ProcessQuery: logs the attempts as data rather than as their JSON
  text.
- `load_base`, `load_enriched_optional`, `build_enriched_index` and the
  feature loop of `mapa.py`'s `main`. These read and shape data for the web
  page; they are not part of the geocoding core.
- Floating point: coordinates and the memory share are exact reals. Rounding
  in `float()` and in `avail * target_fraction` is not modelled, and neither
  is `float(lat)` failing on non-numeric coordinates (geocache_to_json.py:48-49).
- Sizing.BytesPerRow: takes the sampled memory (`memory_usage(deep=True)`) as
  an input, because pandas' memory accounting is not modelled.
- Sizing.AvailableRam: the probe library's figure and the lines of
  `/proc/meminfo` are parameters. An unreadable file stands for the bare
  `except` at sizing_chunks.py:63-65.
- Sizing.ParseInt: accepts an optional sign and ASCII digits only. Python's
  `int()` also accepts surrounding whitespace, underscores and other Unicode
  digits.
- The clock and the source path in the exported metadata
  (geocache_to_json.py:55-56).
- Pandas' column-suffix renaming when a base already has a column the
  company or partner rows add. The model reads the added value.
- Empresas.MergeEmpresas: the fill loop at merge_com_empresas.py:184-187 is
  not modelled. After the join every preferred column it names is already
  present, so it adds nothing.
- Socios.MergeSocios: states only the error condition and its message. Its rows are
  described by `ChunkOutJoined`, `ChunkOutComplete`, `MaxNStops` and
  `OutChunksIgnoresChunking`. The left join at merge_socios.py:193 never
  leaves a row unmatched, because line 165 keeps only target roots.
- `sort_values` is modelled as some sort by the key, and ties may come out
  in any order. The exact order pandas gives equal keys is not modelled.

## Findings

| source | as written | input that shows it | evidently intended | confidence | as-written member | corrected member |
|---|---|---|---|---|---|---|
| filtro_cidades_ativas.py:248-252 | rows are dropped only when their CNPJ was written by an earlier chunk; `seen` is updated after the whole chunk | one chunk holding two rows with the same CNPJ: both are written | each CNPJ written once, the first row kept | not executed; low, since a registry file rarely repeats an establishment | Establishments.AsWrittenKeepsDuplicateInChunk | Establishments.FirstWinsDistinct |
