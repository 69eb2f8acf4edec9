/** `describe_candidate` and `build_candidates` (mapa.py:224-247): the
    geocoder queries tried for one address, in order, and the JSON text that
    names a structured query both in the attempt log and in the dedupe. */
module Candidates {
  import opened Basics
  import opened Text
  import opened Seqs
  import opened Normalize

  /** The country every query names: the default of `build_candidates`
      (mapa.py:229), which the geocoding loop passes (mapa.py:316). */
  const Country: string := "Brasil"

  /** A structured query: one of the dicts built at mapa.py:234-239. An
      absent field is a key the dict does not have. */
  datatype Query = Query(
    street: Option<string>,
    postalcode: Option<string>,
    city: string,
    state: string,
    country: string)

  datatype Candidate = Structured(query: Query) | Freetext(text: string)

  // ---------------------------------------------------------------------------
  // JSON text as `json.dumps(..., ensure_ascii=False)` writes it

  const HexDigits: string := "0123456789abcdef"

  /** One character of a JSON string literal: the two-character escapes,
      `\u00xx` (lower-case hex) for the other control characters, and every
      other character, non-ASCII included, as itself. */
  function JsonChar(c: char): (r: string)
    ensures |r| > 0
  {
    if c == '"' then "\\\""
    else if c == '\\' then "\\\\"
    else if c == '\n' then "\\n"
    else if c == '\r' then "\\r"
    else if c == '\t' then "\\t"
    else if c == '\U{8}' then "\\b"
    else if c == '\U{C}' then "\\f"
    else if (c as int) < 0x20 then "\\u00" + [HexDigits[c as int / 16], HexDigits[c as int % 16]]
    else [c]
  }

  function JsonBody(s: string): (r: string)
    ensures |r| >= |s|
  {
    if |s| == 0 then "" else JsonChar(s[0]) + JsonBody(s[1..])
  }

  function JsonString(s: string): (r: string)
    ensures |r| >= 2 && r[0] == '"' && r[|r| - 1] == '"'
  {
    "\"" + JsonBody(s) + "\""
  }

  /** `"key": value`, with the default separators of `json.dumps`. */
  function JsonMember(e: (string, string)): (r: string)
    ensures |r| > 0 && r[0] == '"'
  {
    JsonString(e.0) + ": " + JsonString(e.1)
  }

  /** The members joined by `", "`. */
  function JsonMembers(es: seq<(string, string)>): string
  {
    if |es| == 0 then ""
    else if |es| == 1 then JsonMember(es[0])
    else JsonMember(es[0]) + ", " + JsonMembers(es[1..])
  }

  function JsonObject(es: seq<(string, string)>): (r: string)
    ensures |r| >= 2 && r[0] == '{' && r[|r| - 1] == '}'
  {
    "{" + JsonMembers(es) + "}"
  }

  // ---------------------------------------------------------------------------
  // Reading a JSON string literal back: the inverse of `JsonBody`

  function HexValue(c: char): (r: Option<nat>)
    ensures r.Some? ==> r.value < 16
  {
    if '0' <= c <= '9' then Some(c as int - '0' as int)
    else if 'a' <= c <= 'f' then Some(c as int - 'a' as int + 10)
    else if 'A' <= c <= 'F' then Some(c as int - 'A' as int + 10)
    else None
  }

  /** The code point of four hex digits. */
  function Hex4(t: string): (r: Option<nat>)
    requires |t| == 4
    ensures r.Some? ==> r.value < 0x10000
  {
    match (HexValue(t[0]), HexValue(t[1]), HexValue(t[2]), HexValue(t[3]))
    case (Some(a), Some(b), Some(c), Some(d)) => Some(((a * 16 + b) * 16 + c) * 16 + d)
    case _ => None
  }

  function Cons(c: char, r: Option<string>): Option<string> {
    match r
    case Some(s) => Some([c] + s)
    case None => None
  }

  /** The character that a backslash followed by `e` stands for. */
  function ShortEscape(e: char): Option<char>
  {
    if e == '"' then Some('"')
    else if e == '\\' then Some('\\')
    else if e == '/' then Some('/')
    else if e == 'b' then Some('\U{8}')
    else if e == 'f' then Some('\U{C}')
    else if e == 'n' then Some('\n')
    else if e == 'r' then Some('\r')
    else if e == 't' then Some('\t')
    else None
  }

  /** The characters a JSON string body stands for; `None` on a raw quote or
      control character or a malformed escape. A `\u` escape of a surrogate
      half is rejected rather than paired. */
  function DecodeBody(t: string): Option<string>
    decreases |t|
  {
    if |t| == 0 then Some("")
    else if t[0] == '"' || (t[0] as int) < 0x20 then None
    else if t[0] != '\\' then Cons(t[0], DecodeBody(t[1..]))
    else if |t| < 2 then None
    else if ShortEscape(t[1]).Some? then Cons(ShortEscape(t[1]).value, DecodeBody(t[2..]))
    else if t[1] == 'u' && |t| >= 6 then
      match Hex4(t[2..6])
      case Some(v) =>
        if v < 0xD800 || 0xE000 <= v then Cons(v as char, DecodeBody(t[6..])) else None
      case None => None
    else None
  }

  lemma HexDigitValue(i: nat)
    requires i < 16
    ensures HexValue(HexDigits[i]) == Some(i)
  {
  }

  /** The four hex digits `00xx` written for a control character read back
      as its code. */
  lemma HexByte(t: string, v: nat)
    requires v < 0x20 && t == ['0', '0', HexDigits[v / 16], HexDigits[v % 16]]
    ensures Hex4(t) == Some(v)
  {
    HexDigitValue(v / 16);
    HexDigitValue(v % 16);
  }

  /** A two-character escape decodes to its character. */
  lemma DecodeShort(e: char, c: char, rest: string)
    requires ShortEscape(e) == Some(c)
    ensures DecodeBody(['\\', e] + rest) == Cons(c, DecodeBody(rest))
  {
    var t := ['\\', e] + rest;
    assert t[0] == '\\' && t[1] == e && t[2..] == rest;
  }

  /** A `\u00xx` escape of a control character decodes to it. */
  lemma DecodeControl(c: char, rest: string)
    requires (c as int) < 0x20 && ShortEscape(JsonChar(c)[1]).None?
    ensures DecodeBody(JsonChar(c) + rest) == Cons(c, DecodeBody(rest))
  {
    var v := c as int;
    var t := JsonChar(c) + rest;
    assert t[2..6] == ['0', '0', HexDigits[v / 16], HexDigits[v % 16]];
    HexByte(t[2..6], v);
    assert t[6..] == rest;
  }

  /** Decoding one escaped character gives the character back. */
  lemma DecodeJsonChar(c: char, rest: string)
    ensures DecodeBody(JsonChar(c) + rest) == Cons(c, DecodeBody(rest))
  {
    if c == '"' {
      DecodeShort('"', c, rest);
    } else if c == '\\' {
      DecodeShort('\\', c, rest);
    } else if c == '\n' {
      DecodeShort('n', c, rest);
    } else if c == '\r' {
      DecodeShort('r', c, rest);
    } else if c == '\t' {
      DecodeShort('t', c, rest);
    } else if c == '\U{8}' {
      DecodeShort('b', c, rest);
    } else if c == '\U{C}' {
      DecodeShort('f', c, rest);
    } else if (c as int) < 0x20 {
      DecodeControl(c, rest);
    } else {
      var t := JsonChar(c) + rest;
      assert t[0] == c && t[1..] == rest;
    }
  }

  /** `JsonBody` loses nothing: decoding its output gives the input back. */
  lemma {:induction false} JsonBodyRoundTrip(s: string)
    ensures DecodeBody(JsonBody(s)) == Some(s)
  {
    if |s| > 0 {
      JsonBodyRoundTrip(s[1..]);
      DecodeJsonChar(s[0], JsonBody(s[1..]));
      assert s == [s[0]] + s[1..];
    }
  }

  /** A character with no escape is written as itself. */
  lemma JsonCharPlain(c: char)
    requires c != '"' && c != '\\' && (c as int) >= 0x20
    ensures JsonChar(c) == [c]
  {
  }

  // ---------------------------------------------------------------------------
  // Structured queries as JSON, with sorted keys

  /** The dict's items in the order `sort_keys=True` writes them. */
  function Entries(q: Query): (es: seq<(string, string)>)
  {
    [("city", q.city), ("country", q.country)]
      + (if q.postalcode.Some? then [("postalcode", q.postalcode.value)] else [])
      + [("state", q.state)]
      + (if q.street.Some? then [("street", q.street.value)] else [])
  }

  /** `json.dumps(q, ensure_ascii=False, sort_keys=True)`. */
  function QueryJson(q: Query): string {
    JsonObject(Entries(q))
  }

  /** The dedupe key of mapa.py:243: the JSON text of a dict, the string
      itself otherwise. */
  function Key(c: Candidate): string {
    match c
    case Structured(q) => QueryJson(q)
    case Freetext(s) => s
  }

  /** `describe_candidate` (mapa.py:224-227). */
  function Describe(c: Candidate): (r: string)
    ensures c.Structured? ==> r == "dict:" + Key(c)
    ensures c.Freetext? ==> r == "str:" + Key(c)
  {
    match c
    case Structured(q) => "dict:" + QueryJson(q)
    case Freetext(s) => "str:" + s
  }

  /** The entries come out in strictly increasing key order, which is the
      order `sort_keys=True` prescribes. */
  lemma EntriesSorted(q: Query)
    ensures forall i, j :: 0 <= i < j < |Entries(q)| ==>
      StrLe(Entries(q)[i].0, Entries(q)[j].0) && Entries(q)[i].0 != Entries(q)[j].0
  {
    KeyOrder();
    var es := Entries(q);
    forall i, j | 0 <= i < j < |es|
      ensures StrLe(es[i].0, es[j].0) && es[i].0 != es[j].0
    {
      StrLeTrans4();
    }
  }

  /** city < country < postalcode < state < street. */
  lemma KeyOrder()
    ensures StrLe("city", "country") && StrLe("country", "postalcode")
    ensures StrLe("postalcode", "state") && StrLe("state", "street")
  {
    assert "city"[1..] == "ity" && "country"[1..] == "ountry";
    assert "state"[1..] == "tate" && "street"[1..] == "treet";
    assert "tate"[1..] == "ate" && "treet"[1..] == "reet";
  }

  lemma StrLeTrans4()
    ensures StrLe("city", "postalcode") && StrLe("city", "state") && StrLe("city", "street")
    ensures StrLe("country", "state") && StrLe("country", "street")
    ensures StrLe("postalcode", "street")
  {
    KeyOrder();
    StrLeTrans("city", "country", "postalcode");
    StrLeTrans("city", "postalcode", "state");
    StrLeTrans("city", "state", "street");
    StrLeTrans("country", "postalcode", "state");
    StrLeTrans("country", "state", "street");
    StrLeTrans("postalcode", "state", "street");
  }

  // ---------------------------------------------------------------------------
  // build_candidates

  /** The free-text query of mapa.py:241. */
  function FreetextOf(base: string, city: string, uf: string, country: string): string {
    base + ", " + city + ", " + uf + ", " + country
  }

  /** Python truthiness of the optional CEP. */
  predicate HasCep(cep: Option<string>) {
    cep.Some? && cep.value != ""
  }

  /** The candidates before dedupe, mapa.py:233-241. */
  function RawCandidates(base: string, cep: Option<string>, city: string, uf: string, country: string): seq<Candidate>
  {
    var street := Structured(Query(Some(base), None, city, uf, country));
    var both := Structured(Query(Some(base), cep, city, uf, country));
    var postal := Structured(Query(None, cep, city, uf, country));
    var free := Freetext(FreetextOf(base, city, uf, country));
    (if base != "" && HasCep(cep) then [both] else [])
      + (if base != "" then [street] else [])
      + (if HasCep(cep) then [postal] else [])
      + (if base != "" then [free] else [])
  }

  /** `build_candidates` (mapa.py:229-247): normalize, list, drop repeated
      keys keeping the first. */
  function BuildCandidates(raw: string, city: string, uf: string, country: string): (r: seq<Candidate>)
    ensures DistinctKeys(r, Key)
    ensures Subseq(r, RawCandidates(NormalizeForGeocode(raw).base, NormalizeForGeocode(raw).cep, city, uf, country))
    ensures KeySet(r, Key) == KeySet(RawCandidates(NormalizeForGeocode(raw).base, NormalizeForGeocode(raw).cep, city, uf, country), Key)
  {
    var n := NormalizeForGeocode(raw);
    var cands := RawCandidates(n.base, n.cep, city, uf, country);
    FirstOccurrencesProperties(cands, Key);
    Dedupe(cands, Key)
  }

  /** With neither a base nor a CEP there is nothing to try; in particular
      the empty address yields no candidate. */
  lemma NoCandidatesWithoutAddress(raw: string, city: string, uf: string, country: string)
    requires NormalizeForGeocode(raw).base == "" && !HasCep(NormalizeForGeocode(raw).cep)
    ensures BuildCandidates(raw, city, uf, country) == []
  {
  }

  lemma EmptyAddressNoCandidates(city: string, uf: string, country: string)
    ensures BuildCandidates("", city, uf, country) == []
  {
    NoCandidatesWithoutAddress("", city, uf, country);
  }

  /** The four raw candidates never share a key, so the dedupe keeps them
      all: the result is exactly the raw list, in the raw order, as long as
      the country does not end in `}` (`Brasil` does not). */
  lemma BuildCandidatesKeepsAll(raw: string, city: string, uf: string, country: string)
    requires |country| > 0 && country[|country| - 1] != '}'
    ensures BuildCandidates(raw, city, uf, country)
         == RawCandidates(NormalizeForGeocode(raw).base, NormalizeForGeocode(raw).cep, city, uf, country)
  {
    var n := NormalizeForGeocode(raw);
    RawKeysDistinct(n.base, n.cep, city, uf, country);
    FirstOccurrencesOfDistinct(RawCandidates(n.base, n.cep, city, uf, country), Key);
  }

  lemma RawKeysDistinct(base: string, cep: Option<string>, city: string, uf: string, country: string)
    requires |country| > 0 && country[|country| - 1] != '}'
    ensures DistinctKeys(RawCandidates(base, cep, city, uf, country), Key)
  {
    var cands := RawCandidates(base, cep, city, uf, country);
    var street := Structured(Query(Some(base), None, city, uf, country));
    var postal := Structured(Query(None, cep, city, uf, country));
    var free := Freetext(FreetextOf(base, city, uf, country));
    if base != "" && HasCep(cep) {
      FourKeysDistinct(base, cep, city, uf, country);
    } else if base != "" {
      FreetextDiffers(base, city, uf, country, street.query);
      assert cands == [street, free];
      Distinct2(street, free, Key);
    } else if HasCep(cep) {
      assert cands == [postal];
    } else {
      assert cands == [];
    }
  }

  /** With a street and a CEP all four candidates are tried. */
  lemma FourKeysDistinct(base: string, cep: Option<string>, city: string, uf: string, country: string)
    requires |country| > 0 && country[|country| - 1] != '}'
    requires base != "" && HasCep(cep)
    ensures DistinctKeys(RawCandidates(base, cep, city, uf, country), Key)
  {
    var p := cep.value;
    var street := Structured(Query(Some(base), None, city, uf, country));
    var both := Structured(Query(Some(base), cep, city, uf, country));
    var postal := Structured(Query(None, cep, city, uf, country));
    var free := Freetext(FreetextOf(base, city, uf, country));
    BothStreetDiffer(base, p, city, uf, country);
    BothPostalDiffer(base, p, city, uf, country);
    StreetPostalDiffer(base, p, city, uf, country);
    FreetextDiffers(base, city, uf, country, both.query);
    FreetextDiffers(base, city, uf, country, street.query);
    FreetextDiffers(base, city, uf, country, postal.query);
    assert RawCandidates(base, cep, city, uf, country) == [both, street, postal, free];
    Distinct4(both, street, postal, free, Key);
  }

  lemma Distinct4<T, K>(x1: T, x2: T, x3: T, x4: T, key: T -> K)
    requires key(x1) != key(x2) && key(x1) != key(x3) && key(x1) != key(x4)
    requires key(x2) != key(x3) && key(x2) != key(x4) && key(x3) != key(x4)
    ensures DistinctKeys([x1, x2, x3, x4], key)
  {
  }

  lemma Distinct2<T, K>(x1: T, x2: T, key: T -> K)
    requires key(x1) != key(x2)
    ensures DistinctKeys([x1, x2], key)
  {
  }

  /** A JSON object never equals a free-text query, which ends in the
      country. */
  lemma FreetextDiffers(base: string, city: string, uf: string, country: string, q: Query)
    requires |country| > 0 && country[|country| - 1] != '}'
    ensures Key(Freetext(FreetextOf(base, city, uf, country))) != QueryJson(q)
  {
    var f := FreetextOf(base, city, uf, country);
    assert f[|f| - 1] == country[|country| - 1];
  }

  /** Two strings that agree before index `i` and differ at `i` differ. */
  lemma DifferAt(a: string, b: string, i: nat)
    requires i < |a| && i < |b| && a[i] != b[i]
    ensures a != b
  {
  }

  /** Joining two non-empty runs of members puts `", "` between them. */
  lemma {:induction false} MembersAppend(a: seq<(string, string)>, b: seq<(string, string)>)
    requires |a| > 0 && |b| > 0
    ensures JsonMembers(a + b) == JsonMembers(a) + ", " + JsonMembers(b)
    decreases |a|
  {
    if |a| == 1 {
      assert (a + b)[0] == a[0] && (a + b)[1..] == b;
    } else {
      var m, ja, jb := JsonMember(a[0]), JsonMembers(a[1..]), JsonMembers(b);
      AppendTail(a, b);
      MembersAppend(a[1..], b);
      assert JsonMembers(a + b) == m + ", " + (ja + ", " + jb);
      assert JsonMembers(a) == m + ", " + ja;
      JoinAssoc(m + ", ", ja, jb);
    }
  }

  /** Regrouping a join with `", "`. */
  lemma JoinAssoc(x: string, y: string, z: string)
    ensures x + (y + ", " + z) == (x + y) + ", " + z
  {
  }

  /** The members text starts with the quoted first key. */
  lemma MembersStart(es: seq<(string, string)>)
    requires |es| > 0 && |es[0].0| > 0 && es[0].0[0] != '"' && es[0].0[0] != '\\' && es[0].0[0] as int >= 0x20
    ensures |JsonMembers(es)| > 1 && JsonMembers(es)[0] == '"' && JsonMembers(es)[1] == es[0].0[0]
  {
    var k := es[0].0;
    JsonCharPlain(k[0]);
    assert JsonBody(k) == [k[0]] + JsonBody(k[1..]);
    assert JsonString(k)[1] == k[0];
    assert JsonMember(es[0])[1] == k[0];
  }

  function Common(city: string, country: string): seq<(string, string)> {
    [("city", city), ("country", country)]
  }

  /** Objects that share their leading members and then go on with keys
      whose first characters differ are different texts. */
  lemma {:induction false} ForkDiffer(a: seq<(string, string)>, b1: seq<(string, string)>, b2: seq<(string, string)>)
    requires |a| > 0 && |b1| > 0 && |b2| > 0
    requires |b1[0].0| > 0 && b1[0].0[0] != '"' && b1[0].0[0] != '\\' && b1[0].0[0] as int >= 0x20
    requires |b2[0].0| > 0 && b2[0].0[0] != '"' && b2[0].0[0] != '\\' && b2[0].0[0] as int >= 0x20
    requires b1[0].0[0] != b2[0].0[0]
    ensures JsonObject(a + b1) != JsonObject(a + b2)
  {
    var i := |JsonMembers(a)| + 2;
    ForkAt(a, b1);
    ForkAt(a, b2);
    DifferAt(JsonObject(a + b1), JsonObject(a + b2), i + 2);
  }

  /** After the shared members and the `", "` comes the quoted first key of
      the rest. */
  lemma ForkAt(a: seq<(string, string)>, b: seq<(string, string)>)
    requires |a| > 0 && |b| > 0
    requires |b[0].0| > 0 && b[0].0[0] != '"' && b[0].0[0] != '\\' && b[0].0[0] as int >= 0x20
    ensures |JsonObject(a + b)| > |JsonMembers(a)| + 4
    ensures JsonObject(a + b)[|JsonMembers(a)| + 4] == b[0].0[0]
  {
    var ja, m := JsonMembers(a), JsonMembers(b);
    MembersStart(b);
    MembersAppend(a, b);
    var j := JsonMembers(a + b);
    assert j[|ja| + 3] == m[1];
    assert JsonObject(a + b)[|ja| + 4] == j[|ja| + 3];
  }

  /** An object with extra trailing members differs from the shorter one:
      where the shorter closes with `}` the longer goes on with `,`. */
  lemma {:induction false} ExtendDiffer(e: seq<(string, string)>, st: seq<(string, string)>)
    requires |e| > 0 && |st| > 0
    ensures JsonObject(e + st) != JsonObject(e)
  {
    var je, m := JsonMembers(e), JsonMembers(st);
    MembersAppend(e, st);
    var j := JsonMembers(e + st);
    assert j[|je|] == (je + ", ")[|je|];
    assert JsonObject(e + st)[|je| + 1] == ',';
    assert JsonObject(e)[|je| + 1] == '}';
    DifferAt(JsonObject(e + st), JsonObject(e), |je| + 1);
  }

  /** The street+postal object and the street-only object part after the
      country: one goes on with `postalcode`, the other with `state`. */
  lemma BothStreetDiffer(base: string, p: string, city: string, uf: string, country: string)
    ensures QueryJson(Query(Some(base), Some(p), city, uf, country)) != QueryJson(Query(Some(base), None, city, uf, country))
  {
    var a := Common(city, country);
    var b1 := [("postalcode", p), ("state", uf), ("street", base)];
    var b2 := [("state", uf), ("street", base)];
    assert Entries(Query(Some(base), Some(p), city, uf, country)) == a + b1;
    assert Entries(Query(Some(base), None, city, uf, country)) == a + b2;
    assert b1[0].0[0] == 'p' && b2[0].0[0] == 's';
    ForkDiffer(a, b1, b2);
  }

  lemma StreetPostalDiffer(base: string, p: string, city: string, uf: string, country: string)
    ensures QueryJson(Query(Some(base), None, city, uf, country)) != QueryJson(Query(None, Some(p), city, uf, country))
  {
    var a := Common(city, country);
    var b2 := [("state", uf), ("street", base)];
    var b3 := [("postalcode", p), ("state", uf)];
    assert Entries(Query(Some(base), None, city, uf, country)) == a + b2;
    assert Entries(Query(None, Some(p), city, uf, country)) == a + b3;
    assert b2[0].0[0] == 's' && b3[0].0[0] == 'p';
    ForkDiffer(a, b2, b3);
  }

  lemma BothPostalDiffer(base: string, p: string, city: string, uf: string, country: string)
    ensures QueryJson(Query(Some(base), Some(p), city, uf, country)) != QueryJson(Query(None, Some(p), city, uf, country))
  {
    var e3 := Common(city, country) + [("postalcode", p), ("state", uf)];
    var st := [("street", base)];
    assert Entries(Query(Some(base), Some(p), city, uf, country)) == e3 + st;
    assert Entries(Query(None, Some(p), city, uf, country)) == e3;
    ExtendDiffer(e3, st);
  }

  /** The street+postal dict comes first whenever the address has both, the
      free-text query comes last whenever there is a base, and every
      structured candidate names the expected city, state and country. */
  predicate Shaped(r: seq<Candidate>, base: string, cep: Option<string>, city: string, uf: string, country: string) {
    && |r| == (if base != "" then 2 else 0) + (if HasCep(cep) then 1 else 0)
              + (if base != "" && HasCep(cep) then 1 else 0)
    && (base != "" && HasCep(cep) ==> r[0] == Structured(Query(Some(base), cep, city, uf, country)))
    && (base != "" ==> r[|r| - 1] == Freetext(FreetextOf(base, city, uf, country)))
    && (forall i :: 0 <= i < |r| && r[i].Structured? ==>
          r[i].query.city == city && r[i].query.state == uf && r[i].query.country == country)
  }

  lemma RawCandidatesShaped(base: string, cep: Option<string>, city: string, uf: string, country: string)
    ensures Shaped(RawCandidates(base, cep, city, uf, country), base, cep, city, uf, country)
  {
  }

  lemma CandidatesOrder(raw: string, city: string, uf: string, country: string)
    requires |country| > 0 && country[|country| - 1] != '}'
    ensures Shaped(BuildCandidates(raw, city, uf, country),
                   NormalizeForGeocode(raw).base, NormalizeForGeocode(raw).cep, city, uf, country)
  {
    var n := NormalizeForGeocode(raw);
    BuildCandidatesKeepsAll(raw, city, uf, country);
    RawCandidatesShaped(n.base, n.cep, city, uf, country);
  }
}
