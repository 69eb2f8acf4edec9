/** Sequence operations shared by the table stages: row filters, pandas'
    `drop_duplicates` (first occurrence wins), Python's `xs[:k]` slice, and
    the multi-column `sort_values` with `na_position="last"`. */
module Seqs {
  import opened Basics
  import opened Text

  // ---------------------------------------------------------------------------
  // Filtering

  function Filter<T>(xs: seq<T>, keep: T -> bool): (r: seq<T>)
    ensures |r| <= |xs|
    ensures forall i :: 0 <= i < |r| ==> keep(r[i])
    ensures multiset(r) <= multiset(xs)
  {
    if |xs| == 0 then []
    else
      assert xs == [xs[0]] + xs[1..];
      if keep(xs[0]) then [xs[0]] + Filter(xs[1..], keep)
      else Filter(xs[1..], keep)
  }

  /** The rows a filter keeps are exactly the input rows that satisfy it. */
  lemma {:induction false} FilterMembership<T>(xs: seq<T>, keep: T -> bool, x: T)
    ensures x in Filter(xs, keep) <==> x in xs && keep(x)
  {
    if |xs| > 0 {
      FilterMembership(xs[1..], keep, x);
      assert xs == [xs[0]] + xs[1..];
    }
  }

  lemma {:induction false} FilterAppend<T>(a: seq<T>, b: seq<T>, keep: T -> bool)
    ensures Filter(a + b, keep) == Filter(a, keep) + Filter(b, keep)
  {
    if |a| == 0 {
      assert a + b == b;
    } else {
      AppendTail(a, b);
      FilterAppend(a[1..], b, keep);
    }
  }

  /** A column computed row by row. */
  function MapSeq<T, U>(xs: seq<T>, f: T -> U): (r: seq<U>)
    ensures |r| == |xs| && forall i :: 0 <= i < |xs| ==> r[i] == f(xs[i])
  {
    seq(|xs|, i requires 0 <= i < |xs| => f(xs[i]))
  }

  /** Mapping the kept elements yields the image of exactly those
      elements. */
  lemma MapSeqAppend<T, U>(a: seq<T>, b: seq<T>, f: T -> U)
    ensures MapSeq(a + b, f) == MapSeq(a, f) + MapSeq(b, f)
  {
    assert forall i :: 0 <= i < |a + b| ==> MapSeq(a + b, f)[i] == (MapSeq(a, f) + MapSeq(b, f))[i];
  }

  lemma MapFilterMembership<T, U>(xs: seq<T>, keep: T -> bool, f: T -> U, x: T)
    ensures x in xs && keep(x) ==> f(x) in MapSeq(Filter(xs, keep), f)
    ensures forall y :: y in MapSeq(Filter(xs, keep), f) ==> exists z :: z in xs && keep(z) && y == f(z)
  {
    var kept := Filter(xs, keep);
    var out := MapSeq(kept, f);
    FilterMembership(xs, keep, x);
    if x in kept {
      var i :| 0 <= i < |kept| && kept[i] == x;
      assert out[i] == f(x);
    }
    forall y | y in out
      ensures exists z :: z in xs && keep(z) && y == f(z)
    {
      var i :| 0 <= i < |out| && out[i] == y;
      FilterMembership(xs, keep, kept[i]);
    }
  }

  // ---------------------------------------------------------------------------
  // Subsequences

  /** `a` is `b` with some elements removed, order kept. */
  predicate Subseq<T(==)>(a: seq<T>, b: seq<T>)
    decreases |b|
  {
    |a| == 0 || (|b| > 0 && ((a[0] == b[0] && Subseq(a[1..], b[1..])) || Subseq(a, b[1..])))
  }

  lemma {:induction false} SubseqAppendRight<T>(a: seq<T>, b: seq<T>, x: T)
    requires Subseq(a, b)
    ensures Subseq(a + [x], b + [x])
    decreases |b|
  {
    if |a| == 0 {
      SubseqEmpty(b, x);
      assert a + [x] == [x];
    } else {
      assert |b| > 0;
      AppendTail(b, [x]);
      AppendTail(a, [x]);
      if a[0] == b[0] && Subseq(a[1..], b[1..]) {
        SubseqAppendRight(a[1..], b[1..], x);
      } else {
        SubseqAppendRight(a, b[1..], x);
      }
    }
  }

  /** A subsequence is no longer than the sequence it comes from. */
  lemma {:induction false} SubseqLength<T>(a: seq<T>, b: seq<T>)
    requires Subseq(a, b)
    ensures |a| <= |b|
    decreases |b|
  {
    if |a| > 0 {
      if a[0] == b[0] && Subseq(a[1..], b[1..]) {
        SubseqLength(a[1..], b[1..]);
      } else {
        SubseqLength(a, b[1..]);
      }
    }
  }

  /** A subsequence only holds elements of the sequence it comes from. */
  lemma {:induction false} SubseqMembers<T>(a: seq<T>, b: seq<T>)
    requires Subseq(a, b)
    ensures forall x :: x in a ==> x in b
    decreases |b|
  {
    if |a| > 0 {
      if a[0] == b[0] && Subseq(a[1..], b[1..]) {
        SubseqMembers(a[1..], b[1..]);
        assert forall x :: x in a ==> x == a[0] || x in a[1..];
      } else {
        SubseqMembers(a, b[1..]);
      }
    }
  }

  lemma {:induction false} SubseqEmpty<T>(b: seq<T>, x: T)
    ensures Subseq([x], b + [x])
    decreases |b|
  {
    if |b| > 0 {
      AppendTail(b, [x]);
      SubseqEmpty(b[1..], x);
    } else {
      assert ([x] + [])[1..] == [];
    }
  }

  lemma {:induction false} SubseqExtend<T>(a: seq<T>, b: seq<T>, x: T)
    requires Subseq(a, b)
    ensures Subseq(a, b + [x])
    decreases |b|
  {
    if |a| > 0 {
      assert |b| > 0;
      AppendTail(b, [x]);
      if a[0] == b[0] && Subseq(a[1..], b[1..]) {
        SubseqExtend(a[1..], b[1..], x);
      } else {
        SubseqExtend(a, b[1..], x);
      }
    }
  }

  // ---------------------------------------------------------------------------
  // First-wins deduplication

  /** The keys of all elements of `xs`. */
  function KeySet<T, K(==)>(xs: seq<T>, key: T -> K): (ks: set<K>)
    ensures forall i :: 0 <= i < |xs| ==> key(xs[i]) in ks
  {
    if |xs| == 0 then {} else KeySet(xs[..|xs| - 1], key) + {key(xs[|xs| - 1])}
  }

  /** Reference definition of first-wins deduplication: an element is kept
      exactly when no earlier element has its key. */
  function FirstOccurrences<T, K(==)>(xs: seq<T>, key: T -> K): (r: seq<T>)
  {
    if |xs| == 0 then []
    else
      var init := xs[..|xs| - 1];
      var last := xs[|xs| - 1];
      FirstOccurrences(init, key) + (if key(last) in KeySet(init, key) then [] else [last])
  }

  /** The scan every deduplication in the scripts performs: walk the rows in
      order with a set of keys already emitted (build_candidates' `seen`,
      pandas' `drop_duplicates(keep="first")`). */
  function DedupeFrom<T, K(==)>(xs: seq<T>, key: T -> K, seen: set<K>): seq<T>
  {
    if |xs| == 0 then []
    else if key(xs[0]) in seen then DedupeFrom(xs[1..], key, seen)
    else [xs[0]] + DedupeFrom(xs[1..], key, seen + {key(xs[0])})
  }

  function Dedupe<T, K(==)>(xs: seq<T>, key: T -> K): (r: seq<T>)
    ensures r == FirstOccurrences(xs, key)
  {
    DedupeScanIsFirstOccurrences([], xs, key);
    assert [] + xs == xs;
    DedupeFrom(xs, key, {})
  }

  /** The scan, started after a prefix `done`, emits what the reference
      definition adds for the remaining elements. */
  lemma {:induction false} DedupeScanIsFirstOccurrences<T, K>(done: seq<T>, rest: seq<T>, key: T -> K)
    ensures FirstOccurrences(done + rest, key)
         == FirstOccurrences(done, key) + DedupeFrom(rest, key, KeySet(done, key))
    decreases |rest|
  {
    if |rest| == 0 {
      assert done + rest == done;
      assert DedupeFrom(rest, key, KeySet(done, key)) == [];
      assert FirstOccurrences(done, key) + [] == FirstOccurrences(done, key);
    } else {
      var y := rest[0];
      var done' := done + [y];
      assert done' [..|done'| - 1] == done;
      assert done + rest == done' + rest[1..];
      assert KeySet(done', key) == KeySet(done, key) + {key(y)};
      assert FirstOccurrences(done', key)
          == FirstOccurrences(done, key) + (if key(y) in KeySet(done, key) then [] else [y]);
      DedupeScanIsFirstOccurrences(done', rest[1..], key);
      var ks := KeySet(done, key);
      if key(y) in ks {
        assert KeySet(done', key) == ks;
        assert FirstOccurrences(done', key) == FirstOccurrences(done, key);
        assert DedupeFrom(rest, key, ks) == DedupeFrom(rest[1..], key, ks);
      } else {
        assert DedupeFrom(rest, key, ks) == [y] + DedupeFrom(rest[1..], key, ks + {key(y)});
        assert FirstOccurrences(done', key) == FirstOccurrences(done, key) + [y];
      }
    }
  }

  /** No two kept elements share a key, every key survives, every kept
      element comes from the input, and the kept elements keep their order. */
  lemma {:induction false} FirstOccurrencesProperties<T, K>(xs: seq<T>, key: T -> K)
    ensures var r := FirstOccurrences(xs, key);
            && (forall i, j :: 0 <= i < j < |r| ==> key(r[i]) != key(r[j]))
            && KeySet(r, key) == KeySet(xs, key)
            && Subseq(r, xs)
  {
    var r := FirstOccurrences(xs, key);
    if |xs| > 0 {
      var init := xs[..|xs| - 1];
      var last := xs[|xs| - 1];
      FirstOccurrencesProperties(init, key);
      var r0 := FirstOccurrences(init, key);
      assert xs == init + [last];
      if key(last) in KeySet(init, key) {
        assert r == r0;
        SubseqExtend(r0, init, last);
      } else {
        assert r == r0 + [last];
        assert r[..|r| - 1] == r0;
        SubseqAppendRight(r0, init, last);
        forall i, j | 0 <= i < j < |r|
          ensures key(r[i]) != key(r[j])
        {
          if j == |r| - 1 {
            assert key(r0[i]) in KeySet(r0, key);
          }
        }
      }
    }
  }

  /** An element whose key does not occur earlier in the input is kept. */
  lemma {:induction false} FirstOccurrenceKept<T, K>(xs: seq<T>, key: T -> K, j: nat)
    requires j < |xs| && key(xs[j]) !in KeySet(xs[..j], key)
    ensures xs[j] in FirstOccurrences(xs, key)
    decreases |xs|
  {
    var init := xs[..|xs| - 1];
    if j < |xs| - 1 {
      assert init[..j] == xs[..j];
      FirstOccurrenceKept(init, key, j);
    } else {
      assert init == xs[..j];
    }
  }

  /** The chunks of a chunked read, end to end. */
  function Flatten<T>(xss: seq<seq<T>>): seq<T> {
    if |xss| == 0 then [] else xss[0] + Flatten(xss[1..])
  }

  /** The scan over two pieces is the scan over the first, then the scan
      over the second with the keys the first emitted added to `seen`. */
  lemma {:induction false} DedupeFromAppend<T, K>(a: seq<T>, b: seq<T>, key: T -> K, seen: set<K>)
    ensures DedupeFrom(a + b, key, seen)
         == DedupeFrom(a, key, seen) + DedupeFrom(b, key, seen + KeySet(DedupeFrom(a, key, seen), key))
    decreases |a|
  {
    if |a| == 0 {
      assert a + b == b;
      assert seen + KeySet([], key) == seen;
    } else {
      var x := a[0];
      assert (a + b)[0] == x && (a + b)[1..] == a[1..] + b;
      if key(x) in seen {
        DedupeFromAppend(a[1..], b, key, seen);
      } else {
        var seen1 := seen + {key(x)};
        DedupeFromAppend(a[1..], b, key, seen1);
        var d := DedupeFrom(a[1..], key, seen1);
        KeySetAppend([x], d, key);
        assert KeySet([x], key) == {key(x)} by {
          assert [x][..0] == [];
        }
        assert seen1 + KeySet(d, key) == seen + KeySet([x] + d, key);
      }
    }
  }

  /** No two elements of `xs` share a key. */
  predicate DistinctKeys<T, K(==)>(xs: seq<T>, key: T -> K) {
    forall i, j :: 0 <= i < j < |xs| ==> key(xs[i]) != key(xs[j])
  }

  /** A sequence without members is empty. */
  lemma NoMembersEmpty<T>(xs: seq<T>)
    ensures (forall x :: x !in xs) ==> xs == []
  {
    if |xs| > 0 {
      assert xs[0] in xs;
    }
  }

  lemma DistinctKeysPrefix<T, K>(xs: seq<T>, key: T -> K, n: nat)
    requires DistinctKeys(xs, key) && n <= |xs|
    ensures DistinctKeys(xs[..n], key)
  {
    assert forall i :: 0 <= i < n ==> xs[..n][i] == xs[i];
  }

  /** Deduplicating a sequence whose keys are already distinct removes
      nothing. */
  lemma {:induction false} FirstOccurrencesOfDistinct<T, K>(xs: seq<T>, key: T -> K)
    requires DistinctKeys(xs, key)
    ensures FirstOccurrences(xs, key) == xs
  {
    if |xs| > 0 {
      var init := xs[..|xs| - 1];
      var last := xs[|xs| - 1];
      DistinctKeysPrefix(xs, key, |xs| - 1);
      FirstOccurrencesOfDistinct(init, key);
      LastKeyFresh(xs, key);
      assert FirstOccurrences(xs, key) == FirstOccurrences(init, key) + [last];
      assert xs == init + [last];
    }
  }

  /** With distinct keys the last key is not among the earlier ones. */
  lemma LastKeyFresh<T, K>(xs: seq<T>, key: T -> K)
    requires DistinctKeys(xs, key) && |xs| > 0
    ensures key(xs[|xs| - 1]) !in KeySet(xs[..|xs| - 1], key)
  {
    var init := xs[..|xs| - 1];
    assert forall i :: 0 <= i < |init| ==> init[i] == xs[i];
    KeySetAbsent(init, key, key(xs[|xs| - 1]));
  }

  /** A key no element carries is not in the key set. */
  lemma {:induction false} KeySetAbsent<T, K>(xs: seq<T>, key: T -> K, k: K)
    requires forall i :: 0 <= i < |xs| ==> key(xs[i]) != k
    ensures k !in KeySet(xs, key)
  {
    if |xs| > 0 {
      var init := xs[..|xs| - 1];
      assert forall i :: 0 <= i < |init| ==> init[i] == xs[i];
      KeySetAbsent(init, key, k);
    }
  }

  /** The key set holds exactly the keys some element carries. */
  lemma {:induction false} KeySetIff<T, K>(xs: seq<T>, key: T -> K, k: K)
    ensures k in KeySet(xs, key) <==> exists i :: 0 <= i < |xs| && key(xs[i]) == k
  {
    if |xs| > 0 {
      var init := xs[..|xs| - 1];
      KeySetIff(init, key, k);
      if k in KeySet(init, key) {
        var i :| 0 <= i < |init| && key(init[i]) == k;
        assert key(xs[i]) == k;
      }
    }
  }

  /** Reordering does not change the key set. */
  lemma KeySetOfPermutation<T, K>(a: seq<T>, b: seq<T>, key: T -> K)
    requires multiset(a) == multiset(b)
    ensures KeySet(a, key) == KeySet(b, key)
  {
    KeySetWithin(a, b, key);
    KeySetWithin(b, a, key);
  }

  lemma KeySetWithin<T, K>(a: seq<T>, b: seq<T>, key: T -> K)
    requires multiset(a) <= multiset(b)
    ensures KeySet(a, key) <= KeySet(b, key)
  {
    forall k | k in KeySet(a, key) ensures k in KeySet(b, key) {
      KeySetIff(a, key, k);
      var i :| 0 <= i < |a| && key(a[i]) == k;
      assert a[i] in multiset(a);
      assert a[i] in multiset(b);
      var j :| 0 <= j < |b| && b[j] == a[i];
      KeySetIff(b, key, k);
    }
  }

  lemma {:induction false} KeySetAppend<T, K>(a: seq<T>, b: seq<T>, key: T -> K)
    ensures KeySet(a + b, key) == KeySet(a, key) + KeySet(b, key)
    decreases |b|
  {
    if |b| == 0 {
      assert a + b == a;
    } else {
      var ab := a + b;
      assert ab[..|ab| - 1] == a + b[..|b| - 1];
      assert ab[|ab| - 1] == b[|b| - 1];
      KeySetAppend(a, b[..|b| - 1], key);
    }
  }

  // ---------------------------------------------------------------------------
  // Python's `xs[:k]`

  /** `xs[:k]` for an optional limit, including Python's negative `k`, which
      counts from the end. */
  function SliceTo<T>(xs: seq<T>, k: Option<int>): (r: seq<T>)
    ensures k.None? ==> r == xs
    ensures k.Some? && 0 <= k.value ==> r == xs[..if k.value < |xs| then k.value else |xs|]
    ensures k.Some? && k.value < 0 ==> r == xs[..if |xs| + k.value > 0 then |xs| + k.value else 0]
  {
    match k
    case None => xs
    case Some(n) =>
      if n >= 0 then xs[..if n < |xs| then n else |xs|]
      else xs[..if |xs| + n > 0 then |xs| + n else 0]
  }

  /** The limited sequence is a prefix, no longer than a non-negative
      limit. */
  lemma SliceToPrefix<T>(xs: seq<T>, k: Option<int>)
    ensures |SliceTo(xs, k)| <= |xs| && SliceTo(xs, k) == xs[..|SliceTo(xs, k)|]
    ensures k.Some? && k.value >= 0 ==> |SliceTo(xs, k)| <= k.value
    ensures forall x :: x in SliceTo(xs, k) ==> x in xs
  {
  }

  // ---------------------------------------------------------------------------
  // Multi-column sort

  /** One sort column's value: a string, or pandas' NaN (a missing join
      value), which `na_position="last"` places after every string. */
  datatype Field = Str(text: string) | Missing

  type SortKey = seq<Field>

  predicate FieldLe(a: Field, b: Field) {
    match (a, b)
    case (Str(x), Str(y)) => StrLe(x, y)
    case (Str(_), Missing) => true
    case (Missing, Str(_)) => false
    case (Missing, Missing) => true
  }

  /** Lexicographic order on sort keys, column by column. */
  predicate KeyLe(a: SortKey, b: SortKey)
    decreases |a|
  {
    |a| == 0 || (|b| > 0 && ((FieldLe(a[0], b[0]) && a[0] != b[0]) || (a[0] == b[0] && KeyLe(a[1..], b[1..]))))
  }

  lemma FieldLeRefl(a: Field)
    ensures FieldLe(a, a)
  {
    if a.Str? {
      StrLeRefl(a.text);
    }
  }

  lemma FieldLeTotal(a: Field, b: Field)
    ensures FieldLe(a, b) || FieldLe(b, a)
  {
    if a.Str? && b.Str? {
      StrLeTotal(a.text, b.text);
    }
  }

  lemma FieldLeAntisym(a: Field, b: Field)
    requires FieldLe(a, b) && FieldLe(b, a)
    ensures a == b
  {
    if a.Str? && b.Str? {
      StrLeAntisym(a.text, b.text);
    }
  }

  lemma FieldLeTrans(a: Field, b: Field, c: Field)
    requires FieldLe(a, b) && FieldLe(b, c)
    ensures FieldLe(a, c)
  {
    if a.Str? && b.Str? && c.Str? {
      StrLeTrans(a.text, b.text, c.text);
    }
  }

  lemma {:induction false} KeyLeTotal(a: SortKey, b: SortKey)
    ensures KeyLe(a, b) || KeyLe(b, a)
    decreases |a|
  {
    if |a| > 0 && |b| > 0 {
      if a[0] == b[0] {
        KeyLeTotal(a[1..], b[1..]);
      } else {
        FieldLeTotal(a[0], b[0]);
      }
    }
  }

  lemma {:induction false} KeyLeTrans(a: SortKey, b: SortKey, c: SortKey)
    requires KeyLe(a, b) && KeyLe(b, c)
    ensures KeyLe(a, c)
    decreases |a|
  {
    if |a| > 0 {
      if a[0] == b[0] && b[0] == c[0] {
        KeyLeTrans(a[1..], b[1..], c[1..]);
      } else {
        FieldLeRefl(a[0]);
        FieldLeRefl(b[0]);
        FieldLeTrans(a[0], b[0], c[0]);
        if a[0] == c[0] {
          FieldLeAntisym(a[0], b[0]);
        }
      }
    }
  }

  predicate SortedBy<T>(xs: seq<T>, key: T -> SortKey) {
    forall i, j :: 0 <= i < j < |xs| ==> KeyLe(key(xs[i]), key(xs[j]))
  }

  /** Places `x` before the first element whose key is not smaller, so that
      an element inserted earlier stays ahead of later equal keys. */
  function Insert<T>(x: T, xs: seq<T>, key: T -> SortKey): (r: seq<T>)
    requires SortedBy(xs, key)
    ensures multiset(r) == multiset(xs) + multiset{x}
    ensures SortedBy(r, key)
  {
    if |xs| == 0 then [x]
    else if KeyLe(key(x), key(xs[0])) then
      InsertFront(x, xs, key);
      [x] + xs
    else
      KeyLeTotal(key(x), key(xs[0]));
      var rest := Insert(x, xs[1..], key);
      InsertBehind(xs[0], rest, key, x, xs[1..]);
      assert xs == [xs[0]] + xs[1..];
      [xs[0]] + rest
  }

  lemma InsertFront<T>(x: T, xs: seq<T>, key: T -> SortKey)
    requires |xs| > 0 && SortedBy(xs, key) && KeyLe(key(x), key(xs[0]))
    ensures SortedBy([x] + xs, key)
  {
    var r := [x] + xs;
    forall i, j | 0 <= i < j < |r|
      ensures KeyLe(key(r[i]), key(r[j]))
    {
      if i == 0 && j > 1 {
        KeyLeTrans(key(x), key(xs[0]), key(xs[j - 1]));
      }
    }
  }

  lemma InsertBehind<T>(y: T, rest: seq<T>, key: T -> SortKey, x: T, tail: seq<T>)
    requires SortedBy(rest, key) && SortedBy([y] + tail, key)
    requires multiset(rest) == multiset(tail) + multiset{x}
    requires KeyLe(key(y), key(x))
    ensures SortedBy([y] + rest, key)
  {
    var r := [y] + rest;
    forall i, j | 0 <= i < j < |r|
      ensures KeyLe(key(r[i]), key(r[j]))
    {
      if i == 0 {
        var z := rest[j - 1];
        assert z in multiset(rest);
        if z != x {
          assert z in multiset(tail);
          var k :| 0 <= k < |tail| && tail[k] == z;
          assert ([y] + tail)[k + 1] == z && ([y] + tail)[0] == y;
          assert KeyLe(key(([y] + tail)[0]), key(([y] + tail)[k + 1]));
        }
      } else {
        assert r[i] == rest[i - 1] && r[j] == rest[j - 1];
      }
    }
  }

  /** pandas' `sort_values(keys)`: a sort by the key columns; ties may come out in any order. */
  function SortBy<T>(xs: seq<T>, key: T -> SortKey): (r: seq<T>)
    ensures multiset(r) == multiset(xs)
    ensures SortedBy(r, key)
  {
    if |xs| == 0 then []
    else
      assert xs == [xs[0]] + xs[1..];
      Insert(xs[0], SortBy(xs[1..], key), key)
  }
}
