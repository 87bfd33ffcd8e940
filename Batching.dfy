/**
 * Slicing a list into consecutive batches the way `for i in range(0, n, size): xs[i:i + size]`
 * does: half-open index ranges `[i, min(i + size, n))`.
 */
module Batching {
  /** `range(i, n, size)` as half-open batches `[i, min(i + size, n))`. */
  function Batches(n: nat, size: nat, i: nat): seq<(nat, nat)>
    requires size > 0
    decreases n - i
  {
    if i >= n then [] else [(i, if i + size < n then i + size else n)] + Batches(n, size, i + size)
  }

  /** The batches from `i` are the batch at `i`, then the batches from where it ends. */
  lemma BatchesFrom(n: nat, size: nat, i: nat)
    requires size > 0 && i < n
    ensures var end := if i + size < n then i + size else n;
            Batches(n, size, i) == [(i, end)] + Batches(n, size, end)
  {
  }

  /** A loop that has produced `done` and then one more batch still accounts for all of them. */
  lemma BatchesDone(done: seq<(nat, nat)>, n: nat, size: nat, i: nat)
    requires size > 0 && i < n && done + Batches(n, size, i) == Batches(n, size, 0)
    ensures var end := if i + size < n then i + size else n;
            (done + [(i, end)]) + Batches(n, size, end) == Batches(n, size, 0)
  {
    BatchesFrom(n, size, i);
    var end := if i + size < n then i + size else n;
    assert (done + [(i, end)]) + Batches(n, size, end) == done + ([(i, end)] + Batches(n, size, end));
  }

  /**
   * The batches from `i` start at `i`, end at `n`, follow one another without gap, and each
   * holds at least one and at most `size` items, all but the last exactly `size`.
   */
  lemma {:induction false} BatchesCover(n: nat, size: nat, i: nat)
    requires size > 0 && i <= n
    ensures var bs := Batches(n, size, i);
            (bs == [] <==> i == n) &&
            (bs != [] ==> bs[0].0 == i && bs[|bs| - 1].1 == n) &&
            (forall k :: 0 <= k < |bs| ==> i <= bs[k].0 < bs[k].1 <= bs[k].0 + size && bs[k].1 <= n) &&
            (forall k :: 0 <= k < |bs| - 1 ==> bs[k].1 == bs[k + 1].0 && bs[k].1 == bs[k].0 + size)
    decreases n - i
  {
    if i < n && i + size < n {
      BatchesCover(n, size, i + size);
      var bs := Batches(n, size, i);
      var rest := Batches(n, size, i + size);
      assert bs == [(i, i + size)] + rest;
      assert forall k :: 1 <= k < |bs| ==> bs[k] == rest[k - 1];
    }
  }

  /** Batches never overlap: each ends before any later one starts. */
  lemma {:induction false} BatchesOrdered(n: nat, size: nat, i: nat)
    requires size > 0 && i <= n
    ensures var bs := Batches(n, size, i);
            forall a, b :: 0 <= a < b < |bs| ==> bs[a].1 <= bs[b].0
    decreases n - i
  {
    if i < n && i + size < n {
      BatchesOrdered(n, size, i + size);
      BatchesCover(n, size, i + size);
      var bs := Batches(n, size, i);
      var rest := Batches(n, size, i + size);
      assert bs == [(i, i + size)] + rest;
      forall a, b | 0 <= a < b < |bs| ensures bs[a].1 <= bs[b].0 {
        assert bs[b] == rest[b - 1];
        if a > 0 {
          assert bs[a] == rest[a - 1];
        }
      }
    }
  }

  /** Every index from `i` on is in exactly one batch. */
  lemma {:induction false} BatchOf(n: nat, size: nat, i: nat, x: nat) returns (k: nat)
    requires size > 0 && i <= x < n
    ensures var bs := Batches(n, size, i);
            k < |bs| && bs[k].0 <= x < bs[k].1 &&
            forall k2 :: 0 <= k2 < |bs| && bs[k2].0 <= x < bs[k2].1 ==> k2 == k
    decreases n - i
  {
    var bs := Batches(n, size, i);
    BatchesCover(n, size, i);
    BatchesOrdered(n, size, i);
    if x < bs[0].1 {
      k := 0;
    } else {
      var j := BatchOf(n, size, i + size, x);
      k := j + 1;
      assert bs[k] == Batches(n, size, i + size)[j];
    }
  }

  /** The slices of `xs` the batches select, concatenated in order. */
  function Joined<T>(xs: seq<T>, bs: seq<(nat, nat)>): seq<T>
    decreases |bs|
  {
    if bs == [] then []
    else (if bs[0].0 <= bs[0].1 <= |xs| then xs[bs[0].0..bs[0].1] else []) + Joined(xs, bs[1..])
  }

  /** The batch slices from `i`, taken in order, are exactly the rest of the list. */
  lemma {:induction false} BatchSlices<T>(xs: seq<T>, size: nat, i: nat)
    requires size > 0 && i <= |xs|
    ensures Joined(xs, Batches(|xs|, size, i)) == xs[i..]
    decreases |xs| - i
  {
    if i < |xs| {
      var end := if i + size < |xs| then i + size else |xs|;
      var bs := Batches(|xs|, size, i);
      assert bs[0] == (i, end) && bs[1..] == Batches(|xs|, size, i + size);
      if i + size < |xs| {
        BatchSlices(xs, size, i + size);
        assert xs[i..] == xs[i..end] + xs[end..];
      } else {
        assert Batches(|xs|, size, i + size) == [];
        assert xs[i..end] == xs[i..];
      }
    }
  }
}
