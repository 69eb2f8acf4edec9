/** `geocode_with_candidates` (mapa.py:249-277) and the failure reason of
    `geocode_addresses` (mapa.py:330-334). The geocoder is an oracle: a
    function from a candidate and the optional view box to a reply. */
module Resolver {
  import opened Basics
  import opened Candidates
  import opened Validation

  /** South-west and north-east corners, `((S, W), (N, E))`. */
  type ViewBox = ((real, real), (real, real))

  /** What one geocoder call gives: nothing, a hit, or an exception of the
      named class. */
  datatype Reply = NoHit | Found(hit: Hit) | Raised(name: string)

  type Oracle = (Candidate, Option<ViewBox>) -> Reply

  /** How one try ended: no hit, an exception of the named class, or a hit
      judged by `validate_hit`. */
  datatype Status = Missed | Threw(name: string) | Judged(verdict: Verdict)

  /** The `result` text logged for a try. */
  function Render(s: Status): string {
    match s
    case Missed => "no_hit"
    case Threw(name) => "exception:" + name
    case Judged(v) => Reason(v)
  }

  /** The rendered results tell the cases apart where the script looks at
      them: `ok` and `no_hit` each come from exactly one status. */
  lemma RenderDistinguishes(s: Status)
    ensures Render(s) == "ok" <==> s == Judged(Accepted)
    ensures Render(s) == "no_hit" <==> s == Missed
  {
    match s
    case Missed =>
    case Threw(name) =>
      assert Render(s)[0] == 'e';
    case Judged(v) =>
      if v != Accepted {
        assert Render(s)[0] == 'r';
      }
  }

  /** One entry of the attempt log: the candidate tried and how it ended.
      `Line` is the `{"candidate": ..., "result": ...}` record the script
      appends. */
  datatype Attempt = Attempt(candidate: Candidate, status: Status) {
    function Line(): (string, string) {
      (Describe(candidate), Render(status))
    }
  }

  /** The accepted coordinates, if any, and the attempts. `Lat` and `Lon`
      are the two strings the script returns, `""` when nothing was
      accepted. */
  datatype Outcome = Outcome(coords: Option<(Coord, Coord)>, attempts: seq<Attempt>) {
    function Lat(): (s: string)
      ensures s == "" <==> coords.None?
    {
      if coords.Some? then coords.value.0 else ""
    }

    function Lon(): (s: string)
      ensures s == "" <==> coords.None?
    {
      if coords.Some? then coords.value.1 else ""
    }
  }

  /** The view box handed to every call (mapa.py:253-256). */
  function ViewBoxOf(bbox: Option<BBox>): (vb: Option<ViewBox>)
    ensures vb.Some? <==> bbox.Some?
  {
    match bbox
    case Some(b) => Some(((b.south, b.west), (b.north, b.east)))
    case None => None
  }

  /** The view box and the city box describe the same rectangle. */
  lemma ViewBoxSameArea(b: BBox, lat: real, lon: real)
    ensures var vb := ViewBoxOf(Some(b)).value;
            PointInBbox(lat, lon, Some(b)) <==> BetweenCorners((lat, lon), vb.0, vb.1)
  {
  }

  /** How a reply ends the try, independent of the loop. */
  function StatusFor(reply: Reply, city: string, uf: string, bbox: Option<BBox>): (s: Status)
    ensures s == Judged(Accepted) <==> reply.Found? && ValidateHit(reply.hit, city, uf, bbox).0
  {
    match reply
    case NoHit => Missed
    case Raised(name) => Threw(name)
    case Found(h) => Judged(Check(h, city, uf, bbox))
  }

  /** What trying candidate `c` logs. */
  function AttemptFor(oracle: Oracle, c: Candidate, city: string, uf: string, bbox: Option<BBox>): Attempt {
    Attempt(c, StatusFor(oracle(c, ViewBoxOf(bbox)), city, uf, bbox))
  }

  predicate IsOk(a: Attempt) {
    a.status == Judged(Accepted)
  }

  /** `r` logs one attempt per candidate tried, in the order of `cands`. */
  predicate LogsCandidates(r: Outcome, oracle: Oracle, cands: seq<Candidate>, bbox: Option<BBox>, city: string, uf: string) {
    && |r.attempts| <= |cands|
    && (forall i :: 0 <= i < |r.attempts| ==> r.attempts[i] == AttemptFor(oracle, cands[i], city, uf, bbox))
  }

  /** Of `n` candidates, `r` accepted none before its last attempt, stopped
      early only on an accepted one, and has coordinates exactly when one
      was accepted. */
  predicate StopsAtFirstOk(r: Outcome, n: nat) {
    && |r.attempts| <= n
    && (forall i :: 0 <= i < |r.attempts| - 1 ==> !IsOk(r.attempts[i]))
    && (|r.attempts| < n ==> |r.attempts| > 0 && IsOk(r.attempts[|r.attempts| - 1]))
    && (r.coords.None? <==> NoneOk(r.attempts))
  }

  predicate NoneOk(atts: seq<Attempt>) {
    forall i :: 0 <= i < |atts| ==> !IsOk(atts[i])
  }

  lemma NoneOkCons(a: Attempt, atts: seq<Attempt>)
    ensures NoneOk([a] + atts) <==> !IsOk(a) && NoneOk(atts)
  {
    var xs := [a] + atts;
    assert xs[0] == a;
    assert forall i :: 0 <= i < |atts| ==> atts[i] == xs[i + 1];
  }

  /** `r` is what trying `cands` in order logs and returns. */
  predicate TriedInOrder(r: Outcome, oracle: Oracle, cands: seq<Candidate>, bbox: Option<BBox>, city: string, uf: string) {
    LogsCandidates(r, oracle, cands, bbox, city, uf) && StopsAtFirstOk(r, |cands|)
  }

  /** The candidate loop: try each candidate in order, log one attempt per
      try, and return the coordinates of the first accepted hit. */
  function GeocodeWithCandidates(oracle: Oracle, cands: seq<Candidate>, bbox: Option<BBox>, city: string, uf: string): (r: Outcome)
    ensures TriedInOrder(r, oracle, cands, bbox, city, uf)
    decreases |cands|
  {
    if |cands| == 0 then Outcome(None, [])
    else
      var c := cands[0];
      var a := AttemptFor(oracle, c, city, uf, bbox);
      if IsOk(a) then
        var h := oracle(c, ViewBoxOf(bbox)).hit;
        Outcome(Some((h.latitude, h.longitude)), [a])
      else
        var rest := GeocodeWithCandidates(oracle, cands[1..], bbox, city, uf);
        PrependTried(oracle, cands, bbox, city, uf, rest);
        Prepend(a, rest)
  }

  /** A rejected first attempt in front of the loop over the rest is the
      loop over all. */
  lemma PrependTried(oracle: Oracle, cands: seq<Candidate>, bbox: Option<BBox>, city: string, uf: string, rest: Outcome)
    requires |cands| > 0 && !IsOk(AttemptFor(oracle, cands[0], city, uf, bbox))
    requires TriedInOrder(rest, oracle, cands[1..], bbox, city, uf)
    ensures TriedInOrder(Prepend(AttemptFor(oracle, cands[0], city, uf, bbox), rest), oracle, cands, bbox, city, uf)
  {
    PrependLogs(oracle, cands, bbox, city, uf, rest);
    PrependStops(AttemptFor(oracle, cands[0], city, uf, bbox), rest, |cands| - 1);
  }

  lemma PrependLogs(oracle: Oracle, cands: seq<Candidate>, bbox: Option<BBox>, city: string, uf: string, rest: Outcome)
    requires |cands| > 0 && LogsCandidates(rest, oracle, cands[1..], bbox, city, uf)
    ensures LogsCandidates(Prepend(AttemptFor(oracle, cands[0], city, uf, bbox), rest), oracle, cands, bbox, city, uf)
  {
    var r := Prepend(AttemptFor(oracle, cands[0], city, uf, bbox), rest);
    assert forall i :: 1 <= i < |r.attempts| ==> r.attempts[i] == rest.attempts[i - 1] && cands[i] == cands[1..][i - 1];
  }

  lemma PrependStops(a: Attempt, rest: Outcome, n: nat)
    requires !IsOk(a) && StopsAtFirstOk(rest, n)
    ensures StopsAtFirstOk(Prepend(a, rest), n + 1)
  {
    var r := Prepend(a, rest);
    var xs := rest.attempts;
    NoneOkCons(a, xs);
    forall i | 0 <= i < |r.attempts| - 1
      ensures !IsOk(r.attempts[i])
    {
      if i > 0 {
        assert r.attempts[i] == xs[i - 1];
      }
    }
    if |xs| > 0 {
      assert r.attempts[|r.attempts| - 1] == xs[|xs| - 1];
    }
  }

  function Prepend(a: Attempt, o: Outcome): Outcome {
    Outcome(o.coords, [a] + o.attempts)
  }

  /** The loop stops at the first candidate whose hit is accepted and
      returns that hit's coordinates. */
  lemma {:induction false} GeocodeStopsAtFirstOk(oracle: Oracle, cands: seq<Candidate>, bbox: Option<BBox>, city: string, uf: string, k: nat)
    requires k < |cands|
    requires IsOk(AttemptFor(oracle, cands[k], city, uf, bbox))
    requires forall i :: 0 <= i < k ==> !IsOk(AttemptFor(oracle, cands[i], city, uf, bbox))
    ensures var r := GeocodeWithCandidates(oracle, cands, bbox, city, uf);
            && |r.attempts| == k + 1
            && r.Lat() == oracle(cands[k], ViewBoxOf(bbox)).hit.latitude
            && r.Lon() == oracle(cands[k], ViewBoxOf(bbox)).hit.longitude
    decreases k
  {
    if k > 0 {
      assert !IsOk(AttemptFor(oracle, cands[0], city, uf, bbox));
      assert cands[1..][k - 1] == cands[k];
      assert forall i :: 0 <= i < k - 1 ==> cands[1..][i] == cands[i + 1];
      GeocodeStopsAtFirstOk(oracle, cands[1..], bbox, city, uf, k - 1);
    }
  }

  /** When no hit is accepted every candidate is tried and both
      coordinates come back empty. */
  lemma GeocodeTriesAllWhenNoneOk(oracle: Oracle, cands: seq<Candidate>, bbox: Option<BBox>, city: string, uf: string)
    requires forall i :: 0 <= i < |cands| ==> !IsOk(AttemptFor(oracle, cands[i], city, uf, bbox))
    ensures var r := GeocodeWithCandidates(oracle, cands, bbox, city, uf);
            |r.attempts| == |cands| && r.Lat() == "" && r.Lon() == ""
  {
  }

  /** An exception is logged as `exception:<Name>` and the loop goes on to
      the next candidate. */
  lemma ExceptionContinues(oracle: Oracle, cands: seq<Candidate>, bbox: Option<BBox>, city: string, uf: string, name: string)
    requires |cands| > 1 && oracle(cands[0], ViewBoxOf(bbox)) == Raised(name)
    ensures var r := GeocodeWithCandidates(oracle, cands, bbox, city, uf);
            && |r.attempts| >= 2
            && r.attempts[0].Line() == (Describe(cands[0]), "exception:" + name)
            && r.attempts[1] == AttemptFor(oracle, cands[1], city, uf, bbox)
  {
  }

  // ---------------------------------------------------------------------------
  // Failure reason

  /** The reason logged for a failed address (mapa.py:330-334): the
      rendered result of the first attempt that is not `no_hit`, or
      `no_hit_all`. */
  function FailureReason(attempts: seq<Attempt>): (r: string)
  {
    if |attempts| == 0 then "no_hit_all"
    else if Render(attempts[0].status) != "no_hit" then Render(attempts[0].status)
    else FailureReason(attempts[1..])
  }

  /** The reason is `no_hit_all` after nothing but misses; otherwise it is
      the result of the first attempt that was not a miss. */
  lemma {:induction false} FailureReasonFirst(attempts: seq<Attempt>)
    ensures (forall i :: 0 <= i < |attempts| ==> attempts[i].status == Missed) ==>
              FailureReason(attempts) == "no_hit_all"
    ensures forall k :: (0 <= k < |attempts| && attempts[k].status != Missed
                         && (forall i :: 0 <= i < k ==> attempts[i].status == Missed)) ==>
              FailureReason(attempts) == Render(attempts[k].status)
  {
    if |attempts| > 0 {
      RenderDistinguishes(attempts[0].status);
      FailureReasonFirst(attempts[1..]);
      forall k | 0 <= k < |attempts| && attempts[k].status != Missed
                && (forall i :: 0 <= i < k ==> attempts[i].status == Missed)
        ensures FailureReason(attempts) == Render(attempts[k].status)
      {
        if k > 0 {
          assert attempts[0].status == Missed;
          assert attempts[1..][k - 1] == attempts[k];
          assert forall i :: 0 <= i < k - 1 ==> attempts[1..][i] == attempts[i + 1];
        }
      }
    }
  }

  /** A failed address never gets reason `ok`: the loop only fails when no
      attempt was accepted. */
  lemma {:induction false} FailureReasonNotOk(attempts: seq<Attempt>)
    requires forall i :: 0 <= i < |attempts| ==> !IsOk(attempts[i])
    ensures FailureReason(attempts) != "ok"
  {
    if |attempts| > 0 {
      RenderDistinguishes(attempts[0].status);
      FailureReasonNotOk(attempts[1..]);
    }
  }
}
