/**
 * First-occurrence deduplication by a key, the pattern `main` writes out
 * three times with a `seen` set: raw lines, (name, version) keys, and
 * (raw line, CVE id) keys.
 */
module Dedup {

  /** The keys of the elements of `xs`. */
  function KeysOf<T, K>(xs: seq<T>, key: T -> K): (r: set<K>)
    ensures forall i :: 0 <= i < |xs| ==> key(xs[i]) in r
  {
    if xs == [] then {} else KeysOf(xs[..|xs| - 1], key) + {key(xs[|xs| - 1])}
  }

  /** Element `i` is the first of `xs` with its key. */
  predicate IsFirstOccurrence<T, K(==)>(xs: seq<T>, key: T -> K, i: int) {
    0 <= i < |xs| && forall j :: 0 <= j < i ==> key(xs[j]) != key(xs[i])
  }

  /** No two elements share a key. */
  predicate DistinctKeys<T, K(==)>(xs: seq<T>, key: T -> K) {
    forall a, b :: 0 <= a < b < |xs| ==> key(xs[a]) != key(xs[b])
  }

  /** What a left-to-right loop builds when it appends an element only if its
      key is not yet in the `seen` set, which it then extends. */
  function DedupBy<T, K(==)>(xs: seq<T>, key: T -> K): (r: seq<T>)
    ensures |r| <= |xs|
  {
    if xs == [] then []
    else
      var init := xs[..|xs| - 1];
      var x := xs[|xs| - 1];
      if key(x) in KeysOf(init, key) then DedupBy(init, key) else DedupBy(init, key) + [x]
  }

  /** The positions in `xs` of the elements `DedupBy` keeps. */
  ghost function KeptIndices<T, K>(xs: seq<T>, key: T -> K): seq<nat> {
    if xs == [] then []
    else
      var init := xs[..|xs| - 1];
      if key(xs[|xs| - 1]) in KeysOf(init, key) then KeptIndices(init, key)
      else KeptIndices(init, key) + [|xs| - 1]
  }

  /** One more element is kept exactly when its key is new. */
  lemma DedupSnoc<T, K>(xs: seq<T>, x: T, key: T -> K)
    ensures DedupBy(xs + [x], key) ==
              if key(x) in KeysOf(xs, key) then DedupBy(xs, key) else DedupBy(xs, key) + [x]
  {
    assert (xs + [x])[..|xs|] == xs;
  }

  /** A key is in `KeysOf` only if some element carries it. */
  lemma {:induction false} KeysOfExact<T, K>(xs: seq<T>, key: T -> K, k: K)
    requires k in KeysOf(xs, key)
    ensures exists i :: 0 <= i < |xs| && key(xs[i]) == k
  {
    var init := xs[..|xs| - 1];
    if k != key(xs[|xs| - 1]) {
      KeysOfExact(init, key, k);
      var i :| 0 <= i < |init| && key(init[i]) == k;
      assert key(xs[i]) == k;
    }
  }

  /** Deduplication keeps exactly the first occurrences, in their original
      order: the kept elements are `xs` at strictly increasing positions,
      each of them a first occurrence, and every first occurrence is kept. */
  lemma DedupKeepsFirstOccurrences<T, K>(xs: seq<T>, key: T -> K)
    ensures var r, idx := DedupBy(xs, key), KeptIndices(xs, key);
            |idx| == |r| &&
            (forall k :: 0 <= k < |r| ==> idx[k] < |xs| && r[k] == xs[idx[k]] && IsFirstOccurrence(xs, key, idx[k])) &&
            (forall a, b :: 0 <= a < b < |idx| ==> idx[a] < idx[b]) &&
            (forall i :: IsFirstOccurrence(xs, key, i) ==> i in idx)
  {
    KeptPositions(xs, key);
    KeptAreFirst(xs, key);
    FirstAreKept(xs, key);
  }

  /** The kept elements sit in `xs` at the kept indices, which increase. */
  lemma {:induction false} KeptPositions<T, K>(xs: seq<T>, key: T -> K)
    ensures var r, idx := DedupBy(xs, key), KeptIndices(xs, key);
            |idx| == |r| &&
            (forall k :: 0 <= k < |r| ==> idx[k] < |xs| && r[k] == xs[idx[k]]) &&
            (forall a, b :: 0 <= a < b < |idx| ==> idx[a] < idx[b])
  {
    if xs != [] {
      KeptPositions(xs[..|xs| - 1], key);
    }
  }

  /** Every kept index is a first occurrence. */
  lemma {:induction false} KeptAreFirst<T, K>(xs: seq<T>, key: T -> K)
    ensures forall k :: 0 <= k < |KeptIndices(xs, key)| ==> IsFirstOccurrence(xs, key, KeptIndices(xs, key)[k])
  {
    if xs != [] {
      var n := |xs| - 1;
      var init := xs[..n];
      KeptAreFirst(init, key);
      KeptPositions(init, key);
      var idx0 := KeptIndices(init, key);
      forall k | 0 <= k < |idx0| ensures IsFirstOccurrence(xs, key, idx0[k]) {
        assert IsFirstOccurrence(init, key, idx0[k]);
      }
      if key(xs[n]) !in KeysOf(init, key) {
        assert IsFirstOccurrence(xs, key, n);
      }
    }
  }

  /** Every first occurrence is kept. */
  lemma {:induction false} FirstAreKept<T, K>(xs: seq<T>, key: T -> K)
    ensures forall i :: IsFirstOccurrence(xs, key, i) ==> i in KeptIndices(xs, key)
  {
    if xs != [] {
      var n := |xs| - 1;
      var init := xs[..n];
      FirstAreKept(init, key);
      forall i | IsFirstOccurrence(xs, key, i) ensures i in KeptIndices(xs, key) {
        if i < n {
          assert IsFirstOccurrence(init, key, i);
        } else if key(xs[n]) in KeysOf(init, key) {
          KeysOfExact(init, key, key(xs[n]));
          assert false;
        }
      }
    }
  }

  /** The result never repeats a key. */
  lemma {:induction false} DedupDistinct<T, K>(xs: seq<T>, key: T -> K)
    ensures DistinctKeys(DedupBy(xs, key), key)
  {
    if xs != [] {
      var init, x := xs[..|xs| - 1], xs[|xs| - 1];
      var d := DedupBy(init, key);
      DedupDistinct(init, key);
      DedupKeys(init, key);
      if key(x) !in KeysOf(init, key) {
        var r := d + [x];
        forall a, b | 0 <= a < b < |r| ensures key(r[a]) != key(r[b]) {
          if b == |d| {
            assert key(d[a]) in KeysOf(d, key);
          } else {
            assert r[a] == d[a] && r[b] == d[b];
          }
        }
      }
    }
  }

  /** The key of any input element is the key of some kept element. */
  lemma DedupRepresents<T, K>(xs: seq<T>, key: T -> K, i: nat)
    requires i < |xs|
    ensures exists p :: 0 <= p < |DedupBy(xs, key)| && key(DedupBy(xs, key)[p]) == key(xs[i])
  {
    DedupKeys(xs, key);
    KeysOfExact(DedupBy(xs, key), key, key(xs[i]));
  }

  /** Every key of the input is represented, and no other. */
  lemma {:induction false} DedupKeys<T, K>(xs: seq<T>, key: T -> K)
    ensures KeysOf(DedupBy(xs, key), key) == KeysOf(xs, key)
  {
    if xs != [] {
      var init := xs[..|xs| - 1];
      var r0 := DedupBy(init, key);
      DedupKeys(init, key);
      var r := DedupBy(xs, key);
      if r != r0 {
        assert r[..|r| - 1] == r0;
      }
    }
  }

  /** A sequence without repeated keys is left alone. */
  lemma {:induction false} DedupOfDistinct<T, K>(xs: seq<T>, key: T -> K)
    requires DistinctKeys(xs, key)
    ensures DedupBy(xs, key) == xs
  {
    if xs != [] {
      var n := |xs| - 1;
      var init := xs[..n];
      DedupOfDistinct(init, key);
      assert forall i :: 0 <= i < |init| ==> init[i] == xs[i] && key(xs[i]) != key(xs[n]);
      KeysOfAbsent(init, key, key(xs[n]));
    }
  }

  /** A key no element carries is not in `KeysOf`. */
  lemma {:induction false} KeysOfAbsent<T, K>(xs: seq<T>, key: T -> K, k: K)
    requires forall i :: 0 <= i < |xs| ==> key(xs[i]) != k
    ensures k !in KeysOf(xs, key)
  {
    if xs != [] {
      var init := xs[..|xs| - 1];
      assert forall i :: 0 <= i < |init| ==> init[i] == xs[i];
      KeysOfAbsent(init, key, k);
    }
  }

  /** Deduplicating twice changes nothing. */
  lemma DedupIdempotent<T, K>(xs: seq<T>, key: T -> K)
    ensures DedupBy(DedupBy(xs, key), key) == DedupBy(xs, key)
  {
    DedupDistinct(xs, key);
    DedupOfDistinct(DedupBy(xs, key), key);
  }
}
