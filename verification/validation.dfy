/** Checking one geocoder answer (mapa.py:173-222): the city bounding box,
    `point_in_bbox`, `_addr_city_like` and the ordered checks of
    `validate_hit`. Coordinates are compared as reals; parsing the provider's
    latitude and longitude text into numbers happens outside the model and
    reaches it as an optional point. */
module Validation {
  import opened Basics
  import opened Text

  /** A city box in the order the script keeps it: west, south, east,
      north. */
  datatype BBox = BBox(west: real, south: real, east: real, north: real)

  /** The `boundingbox` field of a Nominatim answer lists south, north, west,
      east. */
  function NominatimOf(b: BBox): (bb: seq<real>)
    ensures |bb| == 4
  {
    [b.south, b.north, b.west, b.east]
  }

  /** The tail of `fetch_city_bbox` (mapa.py:180-184): no answer, no
      bounding box, or one whose length is not four give no box; otherwise
      the four numbers are reordered. */
  function BBoxFromNominatim(bb: Option<seq<real>>): (r: Option<BBox>)
    ensures r.Some? <==> bb.Some? && |bb.value| == 4
  {
    match bb
    case Some(v) =>
      if |v| == 4 then Some(BBox(v[2], v[0], v[3], v[1])) else None
    case None => None
  }

  /** The reordering loses nothing, in both directions. */
  lemma BBoxRoundTrip(b: BBox, bb: seq<real>)
    ensures BBoxFromNominatim(Some(NominatimOf(b))) == Some(b)
    ensures |bb| == 4 ==> NominatimOf(BBoxFromNominatim(Some(bb)).value) == bb
  {
  }

  /** `point_in_bbox` (mapa.py:186-190): no box admits everything; a box
      admits the closed rectangle. */
  predicate PointInBbox(lat: real, lon: real, bbox: Option<BBox>) {
    match bbox
    case None => true
    case Some(b) => b.south <= lat <= b.north && b.west <= lon <= b.east
  }

  /** Reference reading of the test: the point is inside when it lies
      between the south-west and the north-east corners. */
  predicate BetweenCorners(p: (real, real), sw: (real, real), ne: (real, real)) {
    sw.0 <= p.0 <= ne.0 && sw.1 <= p.1 <= ne.1
  }

  lemma PointInBboxCorners(lat: real, lon: real, b: BBox)
    ensures PointInBbox(lat, lon, Some(b)) <==> BetweenCorners((lat, lon), (b.south, b.west), (b.north, b.east))
    ensures PointInBbox(lat, lon, None)
  {
  }

  /** The test is inclusive: both corners of a well-formed box are inside,
      and a point inside a box is inside every box containing it. */
  lemma PointInBboxInclusive(b: BBox, outer: BBox, lat: real, lon: real)
    requires b.south <= b.north && b.west <= b.east
    ensures PointInBbox(b.south, b.west, Some(b)) && PointInBbox(b.north, b.east, Some(b))
    ensures (PointInBbox(lat, lon, Some(b)) && outer.south <= b.south && b.north <= outer.north
             && outer.west <= b.west && b.east <= outer.east) ==> PointInBbox(lat, lon, Some(outer))
  {
  }

  // ---------------------------------------------------------------------------
  // Provider answers

  /** The `address` part of an answer; an absent or null entry is `""`.
      The script treats the two alike except for a null `country_code`,
      whose `.lower()` raises; the model reads it as an absent code. */
  datatype Address = Address(
    countryCode: string,
    city: string,
    town: string,
    municipality: string,
    village: string,
    stateCode: string,
    state: string)

  /** The text of a coordinate as the script formats it (`f"{loc.latitude}"`):
      whatever the provider put there, it renders as a non-empty string. */
  type Coord = s: string | s != "" witness "0"

  /** A geocoder hit: its `class` and `type`, its address, the coordinate
      text it carries, and the point that text parses to (`None` when
      `float()` fails). */
  datatype Hit = Hit(
    cls: string,
    kind: string,
    address: Address,
    latitude: Coord,
    longitude: Coord,
    point: Option<(real, real)>)

  /** `_addr_city_like` (mapa.py:192-193): the first non-empty of city,
      town, municipality and village. */
  function CityLike(a: Address): (r: string)
    ensures r == "" <==> a.city == "" && a.town == "" && a.municipality == "" && a.village == ""
    ensures r != "" ==> r in [a.city, a.town, a.municipality, a.village]
  {
    if a.city != "" then a.city
    else if a.town != "" then a.town
    else if a.municipality != "" then a.municipality
    else a.village
  }

  /** The field `_addr_city_like` picks, by position. */
  lemma CityLikeFirst(a: Address)
    ensures var fields := [a.city, a.town, a.municipality, a.village];
            forall i :: 0 <= i < 4 && fields[i] != "" && (forall j :: 0 <= j < i ==> fields[j] == "") ==>
              CityLike(a) == fields[i]
  {
    var fields := [a.city, a.town, a.municipality, a.village];
    forall i | 0 <= i < 4 && fields[i] != "" && (forall j :: 0 <= j < i ==> fields[j] == "")
      ensures CityLike(a) == fields[i]
    {
      if i > 0 { assert fields[0] == ""; }
      if i > 1 { assert fields[1] == ""; }
      if i > 2 { assert fields[2] == ""; }
    }
  }

  const BoundaryTypes: set<string> := {"administrative", "city", "town", "municipality"}

  /** The outcome of `validate_hit`, one constructor per return statement. */
  datatype Verdict =
    | BoundaryCentroid
    | WrongCountry(code: string)
    | AddrMismatch(cityHit: string, state: string)
    | InvalidLatLon
    | OutsideBBox
    | Accepted

  /** The reason string each outcome is logged with. */
  function Reason(v: Verdict): (r: string)
    ensures StartsWith(r, "reject:") <==> !v.Accepted?
  {
    match v
    case BoundaryCentroid => "reject:boundary-centroid"
    case WrongCountry(c) => "reject:country=" + c
    case AddrMismatch(city, st) => "reject:addr_mismatch city='" + city + "' state='" + st + "'"
    case InvalidLatLon => "reject:invalid_latlon"
    case OutsideBBox => "reject:outside_bbox"
    case Accepted => "ok"
  }

  predicate IsBoundary(h: Hit) {
    h.cls == "boundary" && h.kind in BoundaryTypes
  }

  predicate CountryOk(h: Hit) {
    Lower(h.address.countryCode) == "br"
  }

  predicate CityOk(h: Hit, cityExpect: string) {
    Contains(Upper(CityLike(h.address)), Upper(cityExpect))
  }

  predicate UfOk(h: Hit, ufExpect: string) {
    Upper(ufExpect) == Upper(h.address.stateCode) || Contains(Upper(h.address.state), Upper(ufExpect))
  }

  /** The state the mismatch message names: the upper-cased state code, or
      the upper-cased state name when there is no code. */
  function StateShown(a: Address): string {
    if Upper(a.stateCode) != "" then Upper(a.stateCode) else Upper(a.state)
  }

  predicate InBox(h: Hit, bbox: Option<BBox>)
    requires h.point.Some?
  {
    PointInBbox(h.point.value.0, h.point.value.1, bbox)
  }

  /** The checks of `validate_hit` in the order the script runs them. */
  function Check(h: Hit, cityExpect: string, ufExpect: string, bbox: Option<BBox>): (v: Verdict)
    ensures v.Accepted? <==> (!IsBoundary(h) && CountryOk(h) && CityOk(h, cityExpect) && UfOk(h, ufExpect)
                             && h.point.Some? && InBox(h, bbox))
  {
    if IsBoundary(h) then BoundaryCentroid
    else if !CountryOk(h) then WrongCountry(h.address.countryCode)
    else if !CityOk(h, cityExpect) || !UfOk(h, ufExpect) then AddrMismatch(CityLike(h.address), StateShown(h.address))
    else if h.point.None? then InvalidLatLon
    else if !InBox(h, bbox) then OutsideBBox
    else Accepted
  }

  /** `validate_hit` (mapa.py:195-222) as the pair it returns. */
  function ValidateHit(h: Hit, cityExpect: string, ufExpect: string, bbox: Option<BBox>): (r: (bool, string))
    ensures r.0 <==> r.1 == "ok"
  {
    var v := Check(h, cityExpect, ufExpect, bbox);
    (v.Accepted?, Reason(v))
  }

  /** A boundary centroid is rejected whatever its other fields say: two
      hits that differ only outside `class` and `type` get the same
      answer. */
  lemma BoundaryRejectedRegardless(h: Hit, h2: Hit, cityExpect: string, ufExpect: string, bbox: Option<BBox>)
    requires IsBoundary(h) && h2.cls == h.cls && h2.kind == h.kind
    ensures ValidateHit(h, cityExpect, ufExpect, bbox) == (false, "reject:boundary-centroid")
    ensures ValidateHit(h2, cityExpect, ufExpect, bbox) == ValidateHit(h, cityExpect, ufExpect, bbox)
  {
  }

  /** `(true, "ok")` comes back exactly when every check passes; each
      rejection names the first check that failed. */
  lemma ValidateHitChecks(h: Hit, cityExpect: string, ufExpect: string, bbox: Option<BBox>)
    ensures ValidateHit(h, cityExpect, ufExpect, bbox) == (true, "ok") <==>
            !IsBoundary(h) && CountryOk(h) && CityOk(h, cityExpect) && UfOk(h, ufExpect)
            && h.point.Some? && PointInBbox(h.point.value.0, h.point.value.1, bbox)
    ensures !IsBoundary(h) && !CountryOk(h) ==>
            ValidateHit(h, cityExpect, ufExpect, bbox) == (false, "reject:country=" + h.address.countryCode)
    ensures !IsBoundary(h) && CountryOk(h) && !(CityOk(h, cityExpect) && UfOk(h, ufExpect)) ==>
            ValidateHit(h, cityExpect, ufExpect, bbox).1
              == "reject:addr_mismatch city='" + CityLike(h.address) + "' state='" + StateShown(h.address) + "'"
    ensures !IsBoundary(h) && CountryOk(h) && CityOk(h, cityExpect) && UfOk(h, ufExpect) && h.point.None? ==>
            ValidateHit(h, cityExpect, ufExpect, bbox) == (false, "reject:invalid_latlon")
  {
  }

  /** Either mismatch alone is enough to reject. */
  lemma MismatchEitherRejects(h: Hit, cityExpect: string, ufExpect: string, bbox: Option<BBox>)
    requires !IsBoundary(h) && CountryOk(h)
    requires !CityOk(h, cityExpect) || !UfOk(h, ufExpect)
    ensures Check(h, cityExpect, ufExpect, bbox).AddrMismatch?
    ensures !ValidateHit(h, cityExpect, ufExpect, bbox).0
  {
  }

  /** With no city box every well-placed, parseable hit is accepted. */
  lemma NoBoxAcceptsParsed(h: Hit, cityExpect: string, ufExpect: string)
    requires !IsBoundary(h) && CountryOk(h) && CityOk(h, cityExpect) && UfOk(h, ufExpect) && h.point.Some?
    ensures ValidateHit(h, cityExpect, ufExpect, None) == (true, "ok")
  {
  }
}
