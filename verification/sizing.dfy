/** Choosing a chunk size for reading the establishment files
    (sizing_chunks.py): the memory budget, the clamped chunk size, the
    bytes-per-row estimate, the layout choice, and the `/proc/meminfo`
    fallback of the free-memory probe as a function of the file's lines.
    Floating point is modelled as exact reals. */
module Sizing {
  import opened Basics
  import opened Text
  import opened Establishments

  // ---------------------------------------------------------------------------
  // Python's integer conversions on reals

  /** `int(x)`: truncation toward zero. */
  function Trunc(x: real): (n: int)
    ensures x >= 0.0 ==> n as real <= x < n as real + 1.0
    ensures x < 0.0 ==> n as real - 1.0 < x <= n as real
  {
    if x >= 0.0 then x.Floor else -((-x).Floor)
  }

  /** `a // b` for a positive divisor: the floor of the quotient. */
  function FloorDiv(a: real, b: real): (q: int)
    requires b > 0.0
    ensures q as real * b <= a < (q as real + 1.0) * b
  {
    var x := a / b;
    var q := x.Floor;
    MulLe(q as real, x, b);
    MulLt(x, q as real + 1.0, b);
    assert x * b == a;
    assert a < (q as real + 1.0) * b;
    q
  }

  lemma MulNonneg(x: real, y: real)
    requires x >= 0.0 && y >= 0.0
    ensures x * y >= 0.0
  {
  }

  lemma MulLe(x: real, y: real, b: real)
    requires x <= y && b > 0.0
    ensures x * b <= y * b
  {
    MulNonneg(y - x, b);
    assert (y - x) * b == y * b - x * b;
  }

  lemma MulLt(x: real, y: real, b: real)
    requires x < y && b > 0.0
    ensures x * b < y * b
  {
    assert (y - x) * b > 0.0;
    assert (y - x) * b == y * b - x * b;
  }

  // ---------------------------------------------------------------------------
  // The suggestion (lines 76-100)

  const MinChunk: int := 10_000
  const MaxChunk: int := 300_000
  const MiB: int := 1024 * 1024

  /** Lines 84-86: the sampled memory over the sampled rows, an empty
      sample counting as one row. */
  function BytesPerRow(memBytes: nat, rows: nat): (bpr: real)
    ensures bpr >= 0.0
    ensures rows > 0 ==> bpr * rows as real == memBytes as real
    ensures rows == 0 ==> bpr == memBytes as real
  {
    memBytes as real / (if rows > 0 then rows else 1) as real
  }

  /** Line 95: the share of the free memory, capped. */
  function Budget(avail: int, fraction: real, hardCapMb: int): (b: int)
    ensures b <= hardCapMb * MiB
    ensures b <= Trunc(avail as real * fraction)
    ensures b == hardCapMb * MiB || b == Trunc(avail as real * fraction)
  {
    var share := Trunc(avail as real * fraction);
    if share <= hardCapMb * MiB then share else hardCapMb * MiB
  }

  /** `max(lo, min(x, hi))` as lines 97-99 apply it. */
  function Clamp(x: int): (c: int)
    ensures MinChunk <= c <= MaxChunk
    ensures MinChunk <= x <= MaxChunk ==> c == x
    ensures x < MinChunk ==> c == MinChunk
    ensures x > MaxChunk ==> c == MaxChunk
  {
    var lower := if x >= MinChunk then x else MinChunk;
    if lower <= MaxChunk then lower else MaxChunk
  }

  /** The rows a budget holds at a given row size, at least one byte a
      row (line 97). */
  function RowsInBudget(budget: int, bpr: real): (n: int)
    ensures var d := if bpr >= 1.0 then bpr else 1.0;
            n as real * d <= budget as real < (n as real + 1.0) * d
  {
    FloorDiv(budget as real, if bpr >= 1.0 then bpr else 1.0)
  }

  datatype Suggestion = Suggestion(chunksize: int, bytesPerRow: real, budget: int)

  /** Lines 88-100, with the row-size estimate and the free memory given. */
  function SuggestChunksize(bpr: real, avail: int, fraction: real, hardCapMb: int): (s: Suggestion)
    ensures MinChunk <= s.chunksize <= MaxChunk
    ensures s.budget <= hardCapMb * MiB
    ensures s.bytesPerRow == bpr
  {
    var budget := Budget(avail, fraction, hardCapMb);
    Suggestion(Clamp(RowsInBudget(budget, bpr)), bpr, budget)
  }

  /** Between the two limits the chunk size is the number of rows the
      budget holds: such a chunk fits the budget and one row more would
      not. */
  lemma UnclampedFitsBudget(bpr: real, avail: int, fraction: real, hardCapMb: int)
    requires var s := SuggestChunksize(bpr, avail, fraction, hardCapMb);
             MinChunk <= RowsInBudget(s.budget, bpr) <= MaxChunk
    ensures var s := SuggestChunksize(bpr, avail, fraction, hardCapMb);
            var d := if bpr >= 1.0 then bpr else 1.0;
            && s.chunksize == RowsInBudget(s.budget, bpr)
            && s.chunksize as real * d <= s.budget as real < (s.chunksize as real + 1.0) * d
  {
  }

  /** A larger budget never suggests a smaller chunk. */
  lemma ChunksizeMonotone(bpr: real, b1: int, b2: int)
    requires b1 <= b2
    ensures Clamp(RowsInBudget(b1, bpr)) <= Clamp(RowsInBudget(b2, bpr))
  {
    var d := if bpr >= 1.0 then bpr else 1.0;
    var n1 := RowsInBudget(b1, bpr);
    var n2 := RowsInBudget(b2, bpr);
    FloorMonotone(b1 as real, b2 as real, d, n1, n2);
  }

  lemma FloorMonotone(b1: real, b2: real, d: real, n1: int, n2: int)
    requires d > 0.0 && b1 <= b2
    requires n1 as real * d <= b1 && b2 < (n2 as real + 1.0) * d
    ensures n1 <= n2
  {
    if n1 > n2 {
      MulLe(n2 as real + 1.0, n1 as real, d);
    }
  }

  /** sizing_chunks.py:68-74: the establishment layout is picked by column
      count, and the two layouts are those of the establishment filter; 30
      and 31 columns differ only by `ddd_fax`. Only the layouts agree: for
      any other count this script raises its own message, worded
      differently from the filter's, and the lemma speaks of the layouts
      alone. */
  lemma DetectColsLayouts(n: int)
    ensures DetectColsEst(n).Ok? <==> n == 30 || n == 31
    ensures n == 30 ==> DetectColsEst(n) == Ok(Cols30)
    ensures n == 31 ==> DetectColsEst(n) == Ok(Cols31) && Cols31 == Cols30[..26] + ["ddd_fax"] + Cols30[26..]
  {
    LayoutsDifferByFax();
  }

  // ---------------------------------------------------------------------------
  // Decimal numbers

  /** Reading back the decimal text of a number gives the number. */
  lemma {:induction false} DecimalRoundTrip(n: nat)
    ensures DecimalValue(Decimal(n)) == n
  {
    var s := Decimal(n);
    if n < 10 {
      assert s[..0] == [];
    } else {
      DecimalRoundTrip(n / 10);
      assert s[..|s| - 1] == Decimal(n / 10);
    }
  }

  /** `int(token)` for the tokens it accepts here: decimal digits with an
      optional sign. */
  function ParseInt(t: string): (r: Option<int>)
    ensures AllDigits(t) && |t| > 0 ==> r == Some(DecimalValue(t))
  {
    if |t| > 0 && AllDigits(t) then Some(DecimalValue(t))
    else if |t| > 1 && (t[0] == '-' || t[0] == '+') && AllDigits(t[1..]) then
      var v: int := DecimalValue(t[1..]);
      Some(if t[0] == '-' then -v else v)
    else None
  }

  // ---------------------------------------------------------------------------
  // /proc/meminfo (lines 44-65)

  /** The length of the run of non-whitespace at the start of `s`. */
  function WordEnd(s: string): (n: nat)
    ensures n <= |s|
    ensures forall i :: 0 <= i < n ==> !IsSpace(s[i])
    ensures n < |s| ==> IsSpace(s[n])
  {
    if |s| == 0 || IsSpace(s[0]) then 0 else 1 + WordEnd(s[1..])
  }

  /** `str.split()`: the maximal runs of non-whitespace. */
  function Words(s: string): (ws: seq<string>)
    ensures forall k :: 0 <= k < |ws| ==> |ws[k]| > 0
    decreases |s|
  {
    if |s| == 0 then []
    else if IsSpace(s[0]) then Words(s[1..])
    else
      var n := WordEnd(s);
      [s[..n]] + Words(s[n..])
  }

  /** Whitespace before a word is skipped, and a word is cut at the next
      whitespace. */
  lemma WordsOfWord(w: string, rest: string)
    requires |w| > 0 && forall i :: 0 <= i < |w| ==> !IsSpace(w[i])
    requires |rest| == 0 || IsSpace(rest[0])
    ensures Words(w + rest) == [w] + Words(rest)
  {
    var s := w + rest;
    WordEndOfWord(w, rest);
    assert s[..|w|] == w && s[|w|..] == rest;
  }

  lemma {:induction false} WordEndOfWord(w: string, rest: string)
    requires forall i :: 0 <= i < |w| ==> !IsSpace(w[i])
    requires |rest| == 0 || IsSpace(rest[0])
    ensures WordEnd(w + rest) == |w|
    decreases |w|
  {
    if |w| == 0 {
      assert w + rest == rest;
    } else {
      AppendTail(w, rest);
      WordEndOfWord(w[1..], rest);
    }
  }

  lemma WordsSkipSpace(rest: string)
    ensures Words(" " + rest) == Words(rest)
  {
    assert (" " + rest)[1..] == rest;
  }

  /** The value field of a line, in bytes: the second word read as an
      integer, times 1024; `None` when the line has no such word or it is
      not an integer (the conversion raises). */
  function FieldBytes(line: string): (r: Option<int>)
  {
    var ws := Words(line);
    if |ws| < 2 then None
    else match ParseInt(ws[1])
      case None => None
      case Some(v) => Some(v * 1024)
  }

  /** The scan of lines 53-62: `MemAvailable` ends it, the other three
      fields are remembered, later lines overwriting earlier ones. `None`
      stands for the exception the bare `except` turns into the 1 GiB
      default. */
  function ScanMeminfo(lines: seq<string>, free: int, buffers: int, cached: int): (r: Option<int>)
    decreases |lines|
  {
    if |lines| == 0 then Some(free + buffers + cached)
    else
      var line := lines[0];
      if StartsWith(line, "MemAvailable:") then FieldBytes(line)
      else if StartsWith(line, "MemFree:") then
        match FieldBytes(line)
        case None => None
        case Some(v) => ScanMeminfo(lines[1..], v, buffers, cached)
      else if StartsWith(line, "Buffers:") then
        match FieldBytes(line)
        case None => None
        case Some(v) => ScanMeminfo(lines[1..], free, v, cached)
      else if StartsWith(line, "Cached:") then
        match FieldBytes(line)
        case None => None
        case Some(v) => ScanMeminfo(lines[1..], free, buffers, v)
      else ScanMeminfo(lines[1..], free, buffers, cached)
  }

  const DefaultRam: int := 1 * 1024 * 1024 * 1024

  /** Lines 44-65: the probe's figure when the probe library is present,
      otherwise the scan of `/proc/meminfo` (absent when it cannot be
      opened), 1 GiB on any failure. */
  function AvailableRam(probe: Option<int>, meminfo: Option<seq<string>>): (r: int)
    ensures probe.Some? ==> r == probe.value
    ensures probe.None? && meminfo.None? ==> r == DefaultRam
  {
    if probe.Some? then probe.value
    else if meminfo.None? then DefaultRam
    else match ScanMeminfo(meminfo.value, 0, 0, 0)
      case None => DefaultRam
      case Some(v) => v
  }

  /** The words of a `/proc/meminfo` line: its name, its number and its
      unit. */
  lemma WordsOfMeminfoLine(name: string, d: string)
    requires |name| > 0 && forall i :: 0 <= i < |name| ==> !IsSpace(name[i])
    requires |d| > 0 && AllDigits(d)
    ensures Words(name + " " + d + " kB") == [name, d, "kB"]
  {
    var tail := d + " kB";
    var rest := " " + tail;
    AppendAssoc(name + " ", d, " kB");
    AppendAssoc(name, " ", tail);
    WordsOfWord(name, rest);
    WordsSkipSpace(tail);
    WordsOfNumberAndUnit(d);
  }

  lemma WordsOfNumberAndUnit(d: string)
    requires |d| > 0 && AllDigits(d)
    ensures Words(d + " kB") == [d, "kB"]
  {
    WordsOfUnit();
    WordsOfWord(d, " kB");
    WordsSkipSpace("kB");
  }

  lemma WordsOfUnit()
    ensures Words("kB") == ["kB"]
  {
    WordsOfWord("kB", "");
    assert "kB" + "" == "kB";
  }

  /** A `MemAvailable:` line gives its value in bytes at once, whatever
      lines follow it. */
  lemma MemAvailableFirst(k: nat, later: seq<string>)
    ensures AvailableRam(None, Some(["MemAvailable: " + Decimal(k) + " kB"] + later)) == k * 1024
  {
    var d := Decimal(k);
    var line := "MemAvailable:" + " " + d + " kB";
    assert line == "MemAvailable: " + d + " kB";
    assert StartsWith(line, "MemAvailable:") by {
      assert line[..|"MemAvailable:"|] == "MemAvailable:";
    }
    WordsOfMeminfoLine("MemAvailable:", d);
    DecimalRoundTrip(k);
    assert FieldBytes(line) == Some(k * 1024);
    assert ([line] + later)[0] == line;
  }

  /** Without a `MemAvailable:` line, and with every other field line
      readable, the figure is the sum of the last `MemFree:`, `Buffers:`
      and `Cached:` values, an absent one counting as zero. */
  lemma {:induction false} NoMemAvailableSums(lines: seq<string>, free: int, buffers: int, cached: int)
    requires forall i :: 0 <= i < |lines| ==> !StartsWith(lines[i], "MemAvailable:")
    requires forall i :: 0 <= i < |lines| ==> FieldBytes(lines[i]).Some?
    ensures ScanMeminfo(lines, free, buffers, cached)
         == Some(Last(lines, "MemFree:", free) + Last(lines, "Buffers:", buffers) + Last(lines, "Cached:", cached))
    decreases |lines|
  {
    if |lines| > 0 {
      var line := lines[0];
      var v := FieldBytes(line).value;
      assert forall i :: 0 <= i < |lines[1..]| ==> lines[1..][i] == lines[i + 1];
      PrefixesExclusive(line);
      ScanStep(lines, free, buffers, cached);
      LastStep(lines, "MemFree:", free);
      LastStep(lines, "Buffers:", buffers);
      LastStep(lines, "Cached:", cached);
      var f := if StartsWith(line, "MemFree:") then v else free;
      var b := if StartsWith(line, "Buffers:") then v else buffers;
      var c := if StartsWith(line, "Cached:") then v else cached;
      NoMemAvailableSums(lines[1..], f, b, c);
    }
  }

  /** The value of the last line with a prefix, or `dflt` without one. */
  function Last(lines: seq<string>, prefix: string, dflt: int): int
    decreases |lines|
  {
    if |lines| == 0 then dflt
    else if StartsWith(lines[0], prefix) && FieldBytes(lines[0]).Some? then Last(lines[1..], prefix, FieldBytes(lines[0]).value)
    else Last(lines[1..], prefix, dflt)
  }

  /** One readable line other than `MemAvailable:`: it replaces the value of
      the field it names. */
  lemma ScanStep(lines: seq<string>, free: int, buffers: int, cached: int)
    requires |lines| > 0 && FieldBytes(lines[0]).Some? && !StartsWith(lines[0], "MemAvailable:")
    ensures var v := FieldBytes(lines[0]).value;
            (ScanMeminfo(lines, free, buffers, cached)
             == ScanMeminfo(lines[1..],
                            if StartsWith(lines[0], "MemFree:") then v else free,
                            if !StartsWith(lines[0], "MemFree:") && StartsWith(lines[0], "Buffers:") then v else buffers,
                            if !StartsWith(lines[0], "MemFree:") && !StartsWith(lines[0], "Buffers:") && StartsWith(lines[0], "Cached:") then v else cached))
  {
  }

  /** One readable line: it replaces the value when it has the prefix. */
  lemma LastStep(lines: seq<string>, prefix: string, dflt: int)
    requires |lines| > 0 && FieldBytes(lines[0]).Some?
    ensures Last(lines, prefix, dflt)
         == Last(lines[1..], prefix, if StartsWith(lines[0], prefix) then FieldBytes(lines[0]).value else dflt)
  {
  }

  /** No line starts with two of the field names. */
  lemma PrefixesExclusive(line: string)
    ensures !(StartsWith(line, "MemFree:") && StartsWith(line, "Buffers:"))
    ensures !(StartsWith(line, "MemFree:") && StartsWith(line, "Cached:"))
    ensures !(StartsWith(line, "Buffers:") && StartsWith(line, "Cached:"))
  {
    if StartsWith(line, "MemFree:") {
      assert line[0] == 'M';
    }
    if StartsWith(line, "Buffers:") {
      assert line[0] == 'B';
    }
  }
}
