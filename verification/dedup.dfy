/** Order-preserving deduplication against a growing set of seen keys: the
    loops of gemini.py that keep the first entity or relationship with each
    key, and the id check of the node fetches in app.py. */
module Deduplication {

  /** The keys of the items. */
  function KeySet<T(==), K(==)>(xs: seq<T>, key: T -> K): (ks: set<K>)
    ensures forall i :: 0 <= i < |xs| ==> key(xs[i]) in ks
    decreases |xs|
  {
    if xs == [] then {} else {key(xs[0])} + KeySet(xs[1..], key)
  }

  /** Every key in the set is the key of an item. */
  lemma {:induction false} KeySetMember<T, K>(xs: seq<T>, key: T -> K, k: K)
    requires k in KeySet(xs, key)
    ensures exists i :: 0 <= i < |xs| && key(xs[i]) == k
    decreases |xs|
  {
    if key(xs[0]) != k {
      KeySetMember(xs[1..], key, k);
      var i :| 0 <= i < |xs[1..]| && key(xs[1..][i]) == k;
      assert key(xs[i + 1]) == k;
    }
  }

  lemma {:induction false} KeySetConcat<T, K>(xs: seq<T>, ys: seq<T>, key: T -> K)
    ensures KeySet(xs + ys, key) == KeySet(xs, key) + KeySet(ys, key)
    decreases |xs|
  {
    if xs != [] {
      assert (xs + ys)[1..] == xs[1..] + ys;
      KeySetConcat(xs[1..], ys, key);
    } else {
      assert xs + ys == ys;
    }
  }

  predicate DistinctKeys<T(==), K(==)>(xs: seq<T>, key: T -> K) {
    forall i, j :: 0 <= i < j < |xs| ==> key(xs[i]) != key(xs[j])
  }

  /** `a` is `b` with some items left out, the rest in their order. */
  predicate IsSubsequence<T(==)>(a: seq<T>, b: seq<T>)
    decreases |b|
  {
    a == [] || (b != [] && if a[0] == b[0] then IsSubsequence(a[1..], b[1..]) else IsSubsequence(a, b[1..]))
  }

  lemma {:induction false} SubsequenceTail<T>(a: seq<T>, b: seq<T>)
    requires a != [] && IsSubsequence(a, b)
    ensures IsSubsequence(a[1..], b)
    decreases |b|, 1
  {
    if a[0] != b[0] {
      SubsequenceTail(a, b[1..]);
      SubsequenceSkip(a[1..], b);
    } else {
      SubsequenceSkip(a[1..], b);
    }
  }

  /** An item may be dropped from the front of the longer sequence. */
  lemma {:induction false} SubsequenceSkip<T>(a: seq<T>, b: seq<T>)
    requires b != [] && IsSubsequence(a, b[1..])
    ensures IsSubsequence(a, b)
    decreases |b|, 0
  {
    if a != [] && a[0] == b[0] {
      SubsequenceTail(a, b[1..]);
    }
  }

  /** The `i`th item is the first with its key and that key was not seen before. */
  predicate FirstOfKey<T(==), K(==)>(seen: set<K>, xs: seq<T>, key: T -> K, i: nat)
    requires i < |xs|
  {
    key(xs[i]) !in seen && forall j :: 0 <= j < i ==> key(xs[j]) != key(xs[i])
  }

  /** Keeps each item whose key is neither in `seen` nor the key of an earlier item. */
  function Dedup<T(==), K(==)>(seen: set<K>, xs: seq<T>, key: T -> K): (r: seq<T>)
    ensures DistinctKeys(r, key)
    ensures forall i :: 0 <= i < |r| ==> key(r[i]) !in seen
    ensures IsSubsequence(r, xs)
    ensures seen + KeySet(r, key) == seen + KeySet(xs, key)
    decreases |xs|
  {
    if xs == [] then []
    else if key(xs[0]) in seen then
      var r := Dedup(seen, xs[1..], key);
      SubsequenceSkip(r, xs);
      r
    else
      var rest := Dedup(seen + {key(xs[0])}, xs[1..], key);
      var r := [xs[0]] + rest;
      assert r[1..] == rest;
      assert forall i :: 1 <= i < |r| ==> r[i] == rest[i - 1];
      r
  }

  /** Nothing to deduplicate keeps nothing and meets no key. */
  lemma DedupEmpty<T, K>(seen: set<K>, key: T -> K)
    ensures Dedup(seen, [], key) == [] && KeySet([], key) == {}
  {
  }

  /** Deduplication only drops items. */
  lemma {:induction false} DedupLength<T, K>(seen: set<K>, xs: seq<T>, key: T -> K)
    ensures |Dedup(seen, xs, key)| <= |xs|
    decreases |xs|
  {
    if xs != [] {
      var seen' := if key(xs[0]) in seen then seen else seen + {key(xs[0])};
      DedupLength(seen', xs[1..], key);
    }
  }

  /** Deduplicating a concatenation is deduplicating the first part, then the
      second part against everything met in the first: running the loop chunk
      after chunk with one shared set is one loop over all the chunks. */
  lemma {:induction false} DedupConcat<T, K>(seen: set<K>, xs: seq<T>, ys: seq<T>, key: T -> K)
    ensures Dedup(seen, xs + ys, key) == Dedup(seen, xs, key) + Dedup(seen + KeySet(xs, key), ys, key)
    decreases |xs|
  {
    if xs == [] {
      assert xs + ys == ys;
      assert seen + KeySet(xs, key) == seen;
    } else {
      assert (xs + ys)[0] == xs[0];
      assert (xs + ys)[1..] == xs[1..] + ys;
      var k := key(xs[0]);
      if k in seen {
        DedupConcat(seen, xs[1..], ys, key);
        assert seen + KeySet(xs, key) == seen + KeySet(xs[1..], key);
      } else {
        DedupConcat(seen + {k}, xs[1..], ys, key);
        assert seen + {k} + KeySet(xs[1..], key) == seen + KeySet(xs, key);
      }
    }
  }

  /** Every item that is the first with an unseen key is kept. */
  lemma {:induction false} DedupKeepsFirst<T, K>(seen: set<K>, xs: seq<T>, key: T -> K, i: nat)
    requires i < |xs| && FirstOfKey(seen, xs, key, i)
    ensures xs[i] in Dedup(seen, xs, key)
    decreases |xs|
  {
    if i > 0 {
      var k := key(xs[0]);
      assert key(xs[0]) != key(xs[i]);
      var seen' := if k in seen then seen else seen + {k};
      assert xs[1..][i - 1] == xs[i];
      assert FirstOfKey(seen', xs[1..], key, i - 1) by {
        forall j | 0 <= j < i - 1 ensures key(xs[1..][j]) != key(xs[i]) {
          assert xs[1..][j] == xs[j + 1];
        }
      }
      DedupKeepsFirst(seen', xs[1..], key, i - 1);
    }
  }

  /** Every kept item is the first with its key. */
  lemma {:induction false} DedupOnlyFirst<T, K>(seen: set<K>, xs: seq<T>, key: T -> K, j: nat)
    requires j < |Dedup(seen, xs, key)|
    ensures exists i :: 0 <= i < |xs| && FirstOfKey(seen, xs, key, i) && xs[i] == Dedup(seen, xs, key)[j]
    decreases |xs|
  {
    var k := key(xs[0]);
    var r := Dedup(seen, xs, key);
    if k in seen {
      DedupOnlyFirst(seen, xs[1..], key, j);
      var i :| 0 <= i < |xs[1..]| && FirstOfKey(seen, xs[1..], key, i) && xs[1..][i] == r[j];
      assert xs[i + 1] == xs[1..][i];
      assert FirstOfKey(seen, xs, key, i + 1) by {
        forall m | 0 <= m < i + 1 ensures key(xs[m]) != key(xs[i + 1]) {
          if m > 0 {
            assert xs[m] == xs[1..][m - 1];
          }
        }
      }
    } else if j == 0 {
      assert FirstOfKey(seen, xs, key, 0);
    } else {
      var seen' := seen + {k};
      var rest := Dedup(seen', xs[1..], key);
      assert r[j] == rest[j - 1];
      DedupOnlyFirst(seen', xs[1..], key, j - 1);
      var i :| 0 <= i < |xs[1..]| && FirstOfKey(seen', xs[1..], key, i) && xs[1..][i] == rest[j - 1];
      assert xs[i + 1] == xs[1..][i];
      assert FirstOfKey(seen, xs, key, i + 1) by {
        forall m | 0 <= m < i + 1 ensures key(xs[m]) != key(xs[i + 1]) {
          if m > 0 {
            assert xs[m] == xs[1..][m - 1];
          }
        }
      }
    }
  }
}
