/** Turning the geocoding cache into map features (geocache_to_json.py):
    the missing columns defaulted, rows without coordinates dropped, one
    row per raw query, blank entries skipped, and one feature per row left
    whose name, address and query are the stripped query. Coordinates stay
    text. */
module CacheExport {
  import opened Basics
  import opened Text
  import opened Seqs

  /** The three columns used of one cache row. */
  datatype Entry = Entry(query: string, latitude: string, longitude: string)

  /** Lines 28-30: a column the file lacks reads as empty text in every
      row. */
  function ReadEntry(r: map<string, string>): (e: Entry)
    ensures "query" !in r ==> e.query == ""
    ensures "latitude" !in r ==> e.latitude == ""
    ensures "longitude" !in r ==> e.longitude == ""
    ensures "query" in r && "latitude" in r && "longitude" in r ==> e == Entry(r["query"], r["latitude"], r["longitude"])
  {
    Entry(if "query" in r then r["query"] else "",
          if "latitude" in r then r["latitude"] else "",
          if "longitude" in r then r["longitude"] else "")
  }

  function Query(e: Entry): string {
    e.query
  }

  /** Line 32: both coordinates non-empty as written. */
  predicate HasCoords(e: Entry) {
    e.latitude != "" && e.longitude != ""
  }

  /** Lines 32-34: the rows with coordinates, first row per raw query. */
  function CacheRows(rows: seq<Entry>): (kept: seq<Entry>)
    ensures |kept| <= |rows|
    ensures forall i :: 0 <= i < |kept| ==> HasCoords(kept[i])
    ensures DistinctKeys(kept, Query)
    ensures KeySet(kept, Query) == KeySet(Filter(rows, HasCoords), Query)
    ensures Subseq(kept, Filter(rows, HasCoords))
  {
    var withCoords := Filter(rows, HasCoords);
    FirstOccurrencesProperties(withCoords, Query);
    var kept := Dedupe(withCoords, Query);
    SubseqMembers(kept, withCoords);
    SubseqLength(kept, withCoords);
    assert forall i :: 0 <= i < |kept| ==> kept[i] in withCoords;
    kept
  }

  /** A row with coordinates whose raw query has not appeared before is
      kept. */
  lemma CacheRowsFirstWins(rows: seq<Entry>, j: nat)
    requires j < |Filter(rows, HasCoords)|
    requires Query(Filter(rows, HasCoords)[j]) !in KeySet(Filter(rows, HasCoords)[..j], Query)
    ensures Filter(rows, HasCoords)[j] in CacheRows(rows)
  {
    FirstOccurrenceKept(Filter(rows, HasCoords), Query, j);
  }

  /** One map point. */
  datatype Feature = Feature(
    cnpj: string,
    cnpjFormatado: string,
    nome: string,
    endereco: string,
    latitude: string,
    longitude: string,
    queryGeocode: string)

  /** Lines 38-51 for one row: the stripped fields, or nothing when any of
      them is blank. */
  function ToFeature(r: Entry): (f: Option<Feature>)
    ensures f.Some? <==> Strip(r.query) != "" && Strip(r.latitude) != "" && Strip(r.longitude) != ""
  {
    var end := Strip(r.query);
    var lat := Strip(r.latitude);
    var lon := Strip(r.longitude);
    if end == "" || lat == "" || lon == "" then None
    else Some(Feature("", "", end, end, lat, lon, end))
  }

  function Features(rows: seq<Entry>): (fs: seq<Feature>)
    ensures |fs| <= |rows|
    decreases |rows|
  {
    if |rows| == 0 then []
    else match ToFeature(rows[0])
      case None => Features(rows[1..])
      case Some(f) => [f] + Features(rows[1..])
  }

  /** Every feature has no CNPJ, and its name, address and geocoding query
      are the same non-blank stripped query of a row, with that row's
      stripped coordinates. */
  lemma {:induction false} FeatureContents(rows: seq<Entry>, f: Feature)
    requires f in Features(rows)
    ensures f.cnpj == "" && f.cnpjFormatado == ""
    ensures f.nome == f.endereco == f.queryGeocode != ""
    ensures exists r :: r in rows && f.nome == Strip(r.query)
                     && f.latitude == Strip(r.latitude) && f.longitude == Strip(r.longitude)
    decreases |rows|
  {
    var t := ToFeature(rows[0]);
    if t.Some? && f == t.value {
      assert rows[0] in rows;
    } else {
      FeatureContents(rows[1..], f);
      var r :| r in rows[1..] && f.nome == Strip(r.query)
               && f.latitude == Strip(r.latitude) && f.longitude == Strip(r.longitude);
      assert r in rows;
    }
  }

  /** A row whose stripped query and coordinates are all non-blank gives a
      feature. */
  lemma {:induction false} FeaturesComplete(rows: seq<Entry>, r: Entry)
    requires r in rows && ToFeature(r).Some?
    ensures ToFeature(r).value in Features(rows)
    decreases |rows|
  {
    if rows[0] != r {
      FeaturesComplete(rows[1..], r);
    }
  }

  /** The loop walks the rows in order: the features of two runs of rows,
      one after the other, are the first run's features followed by the
      second's. */
  lemma {:induction false} FeaturesInOrder(a: seq<Entry>, b: seq<Entry>)
    ensures Features(a + b) == Features(a) + Features(b)
    decreases |a|
  {
    if |a| == 0 {
      assert a + b == b;
    } else {
      assert (a + b)[0] == a[0] && (a + b)[1..] == a[1..] + b;
      FeaturesInOrder(a[1..], b);
    }
  }

  /** Whitespace-only coordinates pass the filter of line 32 but no feature
      is made of them. */
  lemma BlankCoordsSkipped(r: Entry)
    requires r.latitude == " " && r.longitude == "1"
    ensures HasCoords(r) && ToFeature(r).None?
  {
    assert Strip(" ") == "" by {
      assert StripLeftSpace(" ") == StripLeftSpace("");
    }
  }

  /** The counts written in the metadata (lines 59-60). */
  datatype Meta = Meta(cityHint: string, ufHint: string, countInput: nat, countOutput: nat)

  datatype Export = Export(meta: Meta, features: seq<Feature>)

  /** Lines 26-63, without the clock and the source path. */
  function ExportCache(rows: seq<Entry>, city: string, uf: string): (e: Export)
    ensures e.meta.countOutput == |e.features| <= e.meta.countInput <= |rows|
    ensures e.meta.cityHint == city && e.meta.ufHint == uf
    ensures forall r :: r in CacheRows(rows) && ToFeature(r).Some? ==> ToFeature(r).value in e.features
  {
    var kept := CacheRows(rows);
    var fs := Features(kept);
    forall r | r in kept && ToFeature(r).Some?
      ensures ToFeature(r).value in fs
    {
      FeaturesComplete(kept, r);
    }
    Export(Meta(city, uf, |kept|, |fs|), fs)
  }

  /** Each exported feature comes from a row with coordinates: its address
      is that row's stripped query. */
  lemma ExportFromKept(rows: seq<Entry>, city: string, uf: string, f: Feature)
    requires f in ExportCache(rows, city, uf).features
    ensures exists r :: r in rows && HasCoords(r) && f.endereco == Strip(r.query)
  {
    var kept := CacheRows(rows);
    FeatureContents(kept, f);
    var k :| k in kept && f.nome == Strip(k.query)
             && f.latitude == Strip(k.latitude) && f.longitude == Strip(k.longitude);
    SubseqMembers(kept, Filter(rows, HasCoords));
    FilterMembership(rows, HasCoords, k);
  }
}
