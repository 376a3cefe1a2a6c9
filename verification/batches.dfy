/** Cutting a sequence into consecutive runs of a fixed length: the word
    chunks of gemini.py and the write batches of ingest_kg.py. */
module Batches {

  function Flatten<T>(gs: seq<seq<T>>): seq<T> {
    if gs == [] then [] else gs[0] + Flatten(gs[1..])
  }

  lemma {:induction false} FlattenCons<T>(g: seq<T>, gs: seq<seq<T>>)
    ensures Flatten([g] + gs) == g + Flatten(gs)
  {
    assert ([g] + gs)[1..] == gs;
  }

  lemma MulBounds(k: int, n: int)
    requires n >= 0
    ensures k >= 1 ==> k * n >= n
    ensures k <= -1 ==> k * n <= -n
  {
  }

  lemma DivUnique(a: nat, n: nat, q: nat, r: nat)
    requires n > 0 && r < n && a == q * n + r
    ensures a / n == q
  {
    var q' := a / n;
    var r' := a % n;
    assert a == q' * n + r';
    assert (q - q') * n == q * n - q' * n;
    MulBounds(q - q', n);
  }

  lemma DivStep(x: nat, n: nat)
    requires n > 0
    ensures (x + n) / n == x / n + 1
  {
    var q := x / n;
    var r := x % n;
    assert x == q * n + r;
    assert x + n == (q + 1) * n + r;
    DivUnique(x + n, n, q + 1, r);
  }

  /** The slices `xs[i:i + n]` for `i` in `range(0, len(xs), n)`:
      consecutive runs of `n` items, the last one shorter when `n` does not
      divide the length. */
  function Groups<T>(ws: seq<T>, n: nat): (gs: seq<seq<T>>)
    requires n > 0
    ensures forall i :: 0 <= i < |gs| ==> 0 < |gs[i]| <= n
    decreases |ws|
  {
    if ws == [] then []
    else if |ws| <= n then [ws]
    else
      var rest := Groups(ws[n..], n);
      var gs := [ws[..n]] + rest;
      assert forall i :: 1 <= i < |gs| ==> gs[i] == rest[i - 1];
      gs
  }

  lemma {:induction false} GroupsCons<T>(ws: seq<T>, n: nat)
    requires n > 0 && |ws| > n
    ensures Groups(ws, n) == [ws[..n]] + Groups(ws[n..], n)
  {
  }

  /** The groups, concatenated, are the items: nothing is lost, repeated or
      reordered. */
  lemma {:induction false} GroupsFlatten<T>(ws: seq<T>, n: nat)
    requires n > 0
    ensures Flatten(Groups(ws, n)) == ws
    decreases |ws|
  {
    if ws == [] {
    } else if |ws| <= n {
      assert Flatten([ws]) == ws + Flatten([]);
    } else {
      GroupsFlatten(ws[n..], n);
      FlattenCons(ws[..n], Groups(ws[n..], n));
      assert ws[..n] + ws[n..] == ws;
    }
  }

  /** All groups but the last are full, and there are as many as the length
      divided by `n`, rounded up. */
  lemma {:induction false} GroupsCount<T>(ws: seq<T>, n: nat)
    requires n > 0
    ensures forall i :: 0 <= i < |Groups(ws, n)| - 1 ==> |Groups(ws, n)[i]| == n
    ensures |Groups(ws, n)| == (|ws| + n - 1) / n
    decreases |ws|
  {
    if ws == [] {
      DivUnique(n - 1, n, 0, n - 1);
    } else if |ws| <= n {
      DivUnique(|ws| + n - 1, n, 1, |ws| - 1);
    } else {
      GroupsCount(ws[n..], n);
      var rest := Groups(ws[n..], n);
      var gs := Groups(ws, n);
      assert forall i :: 1 <= i < |gs| ==> gs[i] == rest[i - 1];
      DivStep(|ws| - n + n - 1, n);
    }
  }

  lemma {:induction false} FlattenSnoc<T>(gs: seq<seq<T>>, g: seq<T>)
    ensures Flatten(gs + [g]) == Flatten(gs) + g
    decreases |gs|
  {
    if gs == [] {
      assert gs + [g] == [g];
      FlattenCons(g, []);
    } else {
      assert gs + [g] == [gs[0]] + (gs[1..] + [g]);
      FlattenCons(gs[0], gs[1..] + [g]);
      FlattenSnoc(gs[1..], g);
      FlattenCons(gs[0], gs[1..]);
      assert [gs[0]] + gs[1..] == gs;
    }
  }

  /** Full groups in front of a sequence are its leading groups: cutting
      `Flatten(bs) + ys` yields `bs` again, then the groups of `ys`. */
  lemma {:induction false} GroupsAfterFull<T>(bs: seq<seq<T>>, ys: seq<T>, n: nat)
    requires n > 0
    requires forall j :: 0 <= j < |bs| ==> |bs[j]| == n
    ensures Groups(Flatten(bs) + ys, n) == bs + Groups(ys, n)
    decreases |bs|
  {
    if bs == [] {
      assert Flatten(bs) + ys == ys;
    } else {
      var rest := Flatten(bs[1..]) + ys;
      FlattenCons(bs[0], bs[1..]);
      assert [bs[0]] + bs[1..] == bs;
      assert Flatten(bs) + ys == bs[0] + rest;
      GroupsAfterFull(bs[1..], ys, n);
      if rest == [] {
        assert bs[0] + rest == bs[0];
        assert Groups(rest, n) == [];
        assert bs[1..] == [];
      } else {
        assert (bs[0] + rest)[..n] == bs[0] && (bs[0] + rest)[n..] == rest;
      }
    }
  }
}
