/** The address cache of mapa.py: `only_digits` and `format_cnpj`
    (mapa.py:41-46), `load_or_init_geocache` and `save_geocache`
    (mapa.py:127-137), and the bookkeeping of `geocode_addresses`
    (mapa.py:279-364): which queries are still pending, what each processed
    query adds to the cache, and the lookup that fills in coordinates. */
module Geocache {
  import opened Basics
  import opened Text
  import opened Seqs
  import opened Candidates
  import opened Validation
  import opened Resolver

  // ---------------------------------------------------------------------------
  // CNPJ text

  /** `format_cnpj` (mapa.py:44-46): the digits, zero-filled to 14, cut as
      `NN.NNN.NNN/NNNN-NN`; digits past the fourteenth are dropped. */
  function FormatCnpj(cnpj: string): (r: string)
    ensures |r| == 18
    ensures r[2] == '.' && r[6] == '.' && r[10] == '/' && r[15] == '-'
  {
    var d := Digits(cnpj);
    ZfillDigits(d, 14);
    var c := Zfill(d, 14);
    c[..2] + "." + c[2..5] + "." + c[5..8] + "/" + c[8..12] + "-" + c[12..14]
  }

  /** A separator between two runs contributes no digit. */
  lemma DigitsAround(x: string, sep: char, y: string)
    requires !IsDigit(sep)
    ensures Digits(x + [sep] + y) == Digits(x) + Digits(y)
  {
    DigitsAppend(x + [sep], y);
    DigitsAppend(x, [sep]);
    assert Digits([sep]) == "";
  }

  /** The five digit groups with their separators give back the groups. */
  lemma GroupsDigits(a: string, b: string, c: string, d: string, e: string)
    requires AllDigits(a) && AllDigits(b) && AllDigits(c) && AllDigits(d) && AllDigits(e)
    ensures Digits(a + "." + b + "." + c + "/" + d + "-" + e) == a + b + c + d + e
  {
    DigitsOfDigits(a);
    DigitsOfDigits(b);
    DigitsOfDigits(c);
    DigitsOfDigits(d);
    DigitsOfDigits(e);
    var s1 := a + "." + b;
    DigitsAround(a, '.', b);
    var s2 := s1 + "." + c;
    DigitsAround(s1, '.', c);
    var s3 := s2 + "/" + d;
    DigitsAround(s2, '/', d);
    DigitsAround(s3, '-', e);
  }

  lemma DigitSlices(c: string)
    requires |c| >= 14 && AllDigits(c)
    ensures AllDigits(c[..2]) && AllDigits(c[2..5]) && AllDigits(c[5..8]) && AllDigits(c[8..12]) && AllDigits(c[12..14])
  {
  }

  lemma SliceGroups(c: string)
    requires |c| >= 14
    ensures c[..2] + c[2..5] + c[5..8] + c[8..12] + c[12..14] == c[..14]
  {
    assert c[..2] + c[2..5] == c[..5];
    assert c[..5] + c[5..8] == c[..8];
    assert c[..8] + c[8..12] == c[..12];
    assert c[..12] + c[12..14] == c[..14];
  }

  /** Reading the digits back out of the formatted text gives the first 14
      of the zero-filled digits. */
  lemma FormatCnpjDigits(cnpj: string)
    ensures Digits(FormatCnpj(cnpj)) == Zfill(Digits(cnpj), 14)[..14]
  {
    var d := Digits(cnpj);
    ZfillDigits(d, 14);
    var c := Zfill(d, 14);
    assert |c| >= 14 && AllDigits(c);
    DigitSlices(c);
    GroupsDigits(c[..2], c[2..5], c[5..8], c[8..12], c[12..14]);
    SliceGroups(c);
    assert FormatCnpj(cnpj) == c[..2] + "." + c[2..5] + "." + c[5..8] + "/" + c[8..12] + "-" + c[12..14];
  }

  /** For a 14-digit CNPJ the formatted text holds exactly its digits. */
  lemma FormatCnpjRoundTrip(cnpj: string)
    requires AllDigits(cnpj) && |cnpj| == 14
    ensures Digits(FormatCnpj(cnpj)) == cnpj
  {
    FormatCnpjDigits(cnpj);
    DigitsOfDigits(cnpj);
    assert Zfill(cnpj, 14) == cnpj;
    assert cnpj[..14] == cnpj;
  }

  // ---------------------------------------------------------------------------
  // Cache rows

  datatype CacheRow = CacheRow(query: string, latitude: string, longitude: string)

  function QueryOf(row: CacheRow): string {
    row.query
  }

  /** A row of the cache file as read with `dtype=str, keep_default_na=False`:
      column name to cell text; a column the file lacks has no entry. */
  type CsvRow = map<string, string>

  /** A cell, `""` when the column is missing (mapa.py:131-132). */
  function Cell(row: CsvRow, column: string): (r: string)
    ensures column !in row ==> r == ""
  {
    if column in row then row[column] else ""
  }

  function ToCacheRow(row: CsvRow): CacheRow {
    CacheRow(Cell(row, "query"), Cell(row, "latitude"), Cell(row, "longitude"))
  }

  /** `load_or_init_geocache` (mapa.py:127-134): no file gives an empty
      cache; otherwise the three columns, defaulted, deduplicated by query
      keeping the first row. */
  function LoadOrInit(file: Option<seq<CsvRow>>): (r: seq<CacheRow>)
    ensures file.None? ==> r == []
    ensures DistinctKeys(r, QueryOf)
    ensures file.Some? ==> r == FirstOccurrences(MapSeq(file.value, ToCacheRow), QueryOf)
  {
    match file
    case None => []
    case Some(rows) =>
      var all := MapSeq(rows, ToCacheRow);
      FirstOccurrencesProperties(all, QueryOf);
      Dedupe(all, QueryOf)
  }

  /** Every query of the file survives the load, and a kept row is a row
      of the file. */
  lemma LoadKeepsEveryQuery(rows: seq<CsvRow>)
    ensures KeySet(LoadOrInit(Some(rows)), QueryOf) == KeySet(MapSeq(rows, ToCacheRow), QueryOf)
    ensures forall x :: x in LoadOrInit(Some(rows)) ==> x in MapSeq(rows, ToCacheRow)
  {
    var all := MapSeq(rows, ToCacheRow);
    FirstOccurrencesProperties(all, QueryOf);
    SubseqMembers(FirstOccurrences(all, QueryOf), all);
  }

  /** `save_geocache` (mapa.py:136-137) writes the rows deduplicated by
      query. */
  function SaveGeocache(cache: seq<CacheRow>): (r: seq<CacheRow>)
    ensures DistinctKeys(r, QueryOf)
    ensures KeySet(r, QueryOf) == KeySet(cache, QueryOf)
    ensures DistinctKeys(cache, QueryOf) ==> r == cache
  {
    FirstOccurrencesProperties(cache, QueryOf);
    if DistinctKeys(cache, QueryOf) then
      FirstOccurrencesOfDistinct(cache, QueryOf);
      Dedupe(cache, QueryOf)
    else
      Dedupe(cache, QueryOf)
  }

  function CacheKeys(cache: seq<CacheRow>): set<string> {
    KeySet(cache, QueryOf)
  }

  // ---------------------------------------------------------------------------
  // Pending queries

  function NotIn(keys: set<string>): string -> bool {
    (q: string) => q !in keys
  }

  function Same(q: string): string {
    q
  }

  /** The queries to geocode (mapa.py:305-308): the base queries not yet in
      the cache, each once, in first-appearance order, cut to
      `max_geocode`. */
  function Pending(queries: seq<string>, cache: seq<CacheRow>, maxGeocode: Option<int>): (r: seq<string>)
  {
    var keys := CacheKeys(cache);
    SliceTo(Dedupe(Filter(queries, NotIn(keys)), Same), maxGeocode)
  }

  /** The pending queries are base queries missing from the cache. */
  lemma PendingMembers(queries: seq<string>, cache: seq<CacheRow>, maxGeocode: Option<int>)
    ensures forall q :: q in Pending(queries, cache, maxGeocode) ==> q in queries && q !in CacheKeys(cache)
  {
    var keys := CacheKeys(cache);
    var unseen := Filter(queries, NotIn(keys));
    var d := Dedupe(unseen, Same);
    FirstOccurrencesProperties(unseen, Same);
    SubseqMembers(d, unseen);
    var r := Pending(queries, cache, maxGeocode);
    SliceToPrefix(d, maxGeocode);
    forall q | q in r ensures q in queries && q !in keys {
      FilterMembership(queries, NotIn(keys), q);
    }
  }

  /** Without a limit the pending queries are the uncached base queries,
      each at its first appearance, in the order of the base. */
  lemma PendingInOrder(queries: seq<string>, cache: seq<CacheRow>)
    ensures Pending(queries, cache, None) == FirstOccurrences(Filter(queries, NotIn(CacheKeys(cache))), Same)
    ensures Subseq(Pending(queries, cache, None), Filter(queries, NotIn(CacheKeys(cache))))
  {
    FirstOccurrencesProperties(Filter(queries, NotIn(CacheKeys(cache))), Same);
  }

  /** No query is pending twice; `max_geocode` keeps the first `max_geocode`
      of the unlimited list, or, as Python's `pend[:k]` does for a negative
      `k`, drops the last `-k`. */
  lemma PendingDistinctAndBounded(queries: seq<string>, cache: seq<CacheRow>, maxGeocode: Option<int>)
    ensures DistinctKeys(Pending(queries, cache, maxGeocode), Same)
    ensures maxGeocode.Some? && maxGeocode.value >= 0 ==> |Pending(queries, cache, maxGeocode)| <= maxGeocode.value
    ensures maxGeocode.Some? && maxGeocode.value >= 0 ==>
              var all := Pending(queries, cache, None);
              Pending(queries, cache, maxGeocode) == all[..if maxGeocode.value < |all| then maxGeocode.value else |all|]
    ensures maxGeocode.Some? && maxGeocode.value < 0 ==>
              var all := Pending(queries, cache, None);
              Pending(queries, cache, maxGeocode) == all[..if |all| + maxGeocode.value > 0 then |all| + maxGeocode.value else 0]
  {
    var keys := CacheKeys(cache);
    var unseen := Filter(queries, NotIn(keys));
    var d := Dedupe(unseen, Same);
    FirstOccurrencesProperties(unseen, Same);
    var r := Pending(queries, cache, maxGeocode);
    SliceToPrefix(d, maxGeocode);
    DistinctKeysPrefix(d, Same, |r|);
  }

  /** With no limit every base query missing from the cache is pending. */
  lemma PendingComplete(queries: seq<string>, cache: seq<CacheRow>)
    ensures forall q :: q in queries && q !in CacheKeys(cache) ==> q in Pending(queries, cache, None)
  {
    var keys := CacheKeys(cache);
    var unseen := Filter(queries, NotIn(keys));
    var d := Dedupe(unseen, Same);
    FirstOccurrencesProperties(unseen, Same);
    forall q | q in queries && q !in keys ensures q in d {
      FilterMembership(queries, NotIn(keys), q);
      var i :| 0 <= i < |unseen| && unseen[i] == q;
      assert Same(unseen[i]) in KeySet(unseen, Same);
      KeySetIff(d, Same, q);
    }
  }

  // ---------------------------------------------------------------------------
  // Processing the pending queries

  /** A line of the failure log (mapa.py:328-339). The attempts are kept as
      attempts; their JSON text is not modelled. */
  datatype FailRow = FailRow(query: string, reason: string, attempts: seq<Attempt>)

  /** What processing one query yields: the coordinates to cache (empty on
      failure) and the failure line, if any. */
  datatype Processed = Processed(lat: string, lon: string, failure: Option<FailRow>)

  /** One iteration of the loop at mapa.py:315-341: build the candidates,
      run them, and record the result, coordinates or not. */
  function ProcessQuery(oracle: Oracle, bbox: Option<BBox>, city: string, uf: string, q: string): (p: Processed)
    ensures p.failure.Some? <==> p.lat == "" && p.lon == ""
    ensures p.failure.Some? ==> p.failure.value.query == q && p.failure.value.reason != "ok"
  {
    var out := GeocodeWithCandidates(oracle, BuildCandidates(q, city, uf, Country), bbox, city, uf);
    if out.Lat() != "" && out.Lon() != "" then Processed(out.Lat(), out.Lon(), None)
    else
      FailureReasonNotOk(out.attempts);
      Processed(out.Lat(), out.Lon(), Some(FailRow(q, FailureReason(out.attempts), out.attempts)))
  }

  /** The result of a pass: what was pending, the grown cache, and the
      failure lines. */
  datatype Run = Run(pending: seq<string>, cache: seq<CacheRow>, failures: seq<FailRow>)

  function Failures(ps: seq<Processed>): seq<FailRow> {
    if |ps| == 0 then []
    else (if ps[0].failure.Some? then [ps[0].failure.value] else []) + Failures(ps[1..])
  }

  /** The pass with the per-query work as a parameter: the new cache is the
      old one followed by one row per pending query, failures included. */
  function RunWith(process: string -> Processed, queries: seq<string>, cache: seq<CacheRow>, maxGeocode: Option<int>): (r: Run)
    ensures r.pending == Pending(queries, cache, maxGeocode)
    ensures |r.cache| == |cache| + |r.pending| && r.cache[..|cache|] == cache
    ensures forall i :: 0 <= i < |r.pending| ==>
              r.cache[|cache| + i] == CacheRow(r.pending[i], process(r.pending[i]).lat, process(r.pending[i]).lon)
  {
    var pend := Pending(queries, cache, maxGeocode);
    var novos := MapSeq(pend, q => CacheRow(q, process(q).lat, process(q).lon));
    assert (cache + novos)[..|cache|] == cache;
    Run(pend, cache + novos, Failures(MapSeq(pend, process)))
  }

  /** `geocode_addresses` (mapa.py:279-364) up to the final lookup. */
  function GeocodeAddresses(oracle: Oracle, bbox: Option<BBox>, city: string, uf: string,
                            queries: seq<string>, cache: seq<CacheRow>, maxGeocode: Option<int>): Run
  {
    RunWith(q => ProcessQuery(oracle, bbox, city, uf, q), queries, cache, maxGeocode)
  }

  /** Every processed query lands in the cache, so the cache keys grow by
      exactly the pending queries. */
  lemma RunCacheKeys(process: string -> Processed, queries: seq<string>, cache: seq<CacheRow>, maxGeocode: Option<int>)
    ensures var r := RunWith(process, queries, cache, maxGeocode);
            CacheKeys(r.cache) == CacheKeys(cache) + set q | q in r.pending
  {
    var r := RunWith(process, queries, cache, maxGeocode);
    var novos := r.cache[|cache|..];
    assert r.cache == cache + novos;
    KeySetAppend(cache, novos, QueryOf);
    assert forall i :: 0 <= i < |novos| ==> novos[i] == r.cache[|cache| + i];
    RowKeys(novos, r.pending);
  }

  /** Rows carrying the given queries, position by position, have exactly
      those queries as keys. */
  lemma RowKeys(rows: seq<CacheRow>, qs: seq<string>)
    requires |rows| == |qs| && forall i :: 0 <= i < |rows| ==> rows[i].query == qs[i]
    ensures KeySet(rows, QueryOf) == set q | q in qs
  {
    forall k ensures k in KeySet(rows, QueryOf) <==> k in qs {
      KeySetIff(rows, QueryOf, k);
      if k in qs {
        var i :| 0 <= i < |qs| && qs[i] == k;
        assert QueryOf(rows[i]) == k;
      }
    }
  }

  /** A cache without repeated queries stays without them, so the map
      built from it at the end loses nothing. */
  lemma RunKeepsDistinct(process: string -> Processed, queries: seq<string>, cache: seq<CacheRow>, maxGeocode: Option<int>)
    requires DistinctKeys(cache, QueryOf)
    ensures DistinctKeys(RunWith(process, queries, cache, maxGeocode).cache, QueryOf)
  {
    var r := RunWith(process, queries, cache, maxGeocode);
    var novos := r.cache[|cache|..];
    assert r.cache == cache + novos;
    assert forall i :: 0 <= i < |novos| ==> novos[i] == r.cache[|cache| + i];
    PendingMembers(queries, cache, maxGeocode);
    PendingDistinctAndBounded(queries, cache, maxGeocode);
    AppendFreshDistinct(cache, novos, r.pending);
  }

  /** Appending rows for distinct queries none of which the cache holds
      keeps the cache's queries distinct. */
  lemma AppendFreshDistinct(cache: seq<CacheRow>, novos: seq<CacheRow>, qs: seq<string>)
    requires DistinctKeys(cache, QueryOf) && DistinctKeys(qs, Same)
    requires |novos| == |qs| && forall i :: 0 <= i < |novos| ==> novos[i].query == qs[i]
    requires forall q :: q in qs ==> q !in CacheKeys(cache)
    ensures DistinctKeys(cache + novos, QueryOf)
  {
    var all := cache + novos;
    var n := |cache|;
    forall i, j | 0 <= i < j < |all| ensures QueryOf(all[i]) != QueryOf(all[j]) {
      if j >= n {
        assert all[j] == novos[j - n];
        assert qs[j - n] in qs;
        if i < n {
          assert all[i] == cache[i];
          assert QueryOf(cache[i]) in CacheKeys(cache);
        } else {
          assert all[i] == novos[i - n];
          assert Same(qs[i - n]) != Same(qs[j - n]);
        }
      } else {
        assert all[i] == cache[i] && all[j] == cache[j];
      }
    }
  }

  /** A failed query is cached with empty coordinates, so the next run does
      not try it again: after a run without a limit nothing of the same
      input is pending. */
  lemma RerunNothingPending(process: string -> Processed, queries: seq<string>, cache: seq<CacheRow>, maxGeocode: Option<int>)
    ensures var r := RunWith(process, queries, cache, None);
            Pending(queries, r.cache, maxGeocode) == []
  {
    var r := RunWith(process, queries, cache, None);
    RunCacheKeys(process, queries, cache, None);
    PendingComplete(queries, cache);
    PendingMembers(queries, r.cache, maxGeocode);
    NoMembersEmpty(Pending(queries, r.cache, maxGeocode));
  }

  /** The failure lines are exactly the failures of the processed queries,
      in order. */
  lemma {:induction false} FailuresListed(ps: seq<Processed>, f: FailRow)
    ensures f in Failures(ps) <==> exists p :: p in ps && p.failure == Some(f)
  {
    if |ps| > 0 {
      FailuresListed(ps[1..], f);
      assert forall p :: p in ps <==> p == ps[0] || p in ps[1..];
    }
  }

  /** In the real pass a failed query is cached with empty coordinates and
      logged with a reason other than `ok`. */
  lemma FailedQueryCached(oracle: Oracle, bbox: Option<BBox>, city: string, uf: string,
                          queries: seq<string>, cache: seq<CacheRow>, maxGeocode: Option<int>, i: nat)
    requires i < |Pending(queries, cache, maxGeocode)|
    requires ProcessQuery(oracle, bbox, city, uf, Pending(queries, cache, maxGeocode)[i]).failure.Some?
    ensures var r := GeocodeAddresses(oracle, bbox, city, uf, queries, cache, maxGeocode);
            && r.cache[|cache| + i] == CacheRow(r.pending[i], "", "")
            && r.pending[i] !in Pending(queries, r.cache, maxGeocode)
  {
    var process := q => ProcessQuery(oracle, bbox, city, uf, q);
    var r := RunWith(process, queries, cache, maxGeocode);
    RunCacheKeys(process, queries, cache, maxGeocode);
    PendingMembers(queries, r.cache, maxGeocode);
    assert r.pending[i] in r.pending;
  }

  // ---------------------------------------------------------------------------
  // Looking coordinates up

  /** `dict(zip(query, zip(latitude, longitude)))` (mapa.py:362): a later
      row overrides an earlier one with the same query. */
  function CacheMap(cache: seq<CacheRow>): (m: map<string, (string, string)>)
    ensures m.Keys == KeySet(cache, QueryOf)
  {
    if |cache| == 0 then map[]
    else
      var last := cache[|cache| - 1];
      CacheMap(cache[..|cache| - 1])[last.query := (last.latitude, last.longitude)]
  }

  /** With no repeated queries the map gives each row's own coordinates. */
  lemma {:induction false} CacheMapOfDistinct(cache: seq<CacheRow>, i: nat)
    requires DistinctKeys(cache, QueryOf) && i < |cache|
    ensures CacheMap(cache)[cache[i].query] == (cache[i].latitude, cache[i].longitude)
  {
    var init := cache[..|cache| - 1];
    if i < |cache| - 1 {
      assert init[i] == cache[i];
      assert QueryOf(cache[i]) != QueryOf(cache[|cache| - 1]);
      CacheMapOfDistinct(init, i);
    }
  }

  /** After a run without a limit every base address has an entry in the
      final map: the coordinates it was geocoded to, or empty ones. */
  lemma EveryQueryResolved(process: string -> Processed, queries: seq<string>, cache: seq<CacheRow>)
    ensures var r := RunWith(process, queries, cache, None);
            forall q :: q in queries ==> q in CacheMap(r.cache)
  {
    RunCacheKeys(process, queries, cache, None);
    PendingComplete(queries, cache);
  }
}
