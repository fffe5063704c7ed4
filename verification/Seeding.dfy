/** The soak run's greedy seeding of its working set. */
module Seeding {
  const MAXIMUM_SEED_BATCH_PAYLOAD_BYTES: nat := 3 * 1024 * 1024

  /** Payload bytes of the documents `a`, ..., `e - 1`. */
  function Bytes(sizes: seq<nat>, a: nat, e: nat): nat
    requires a <= e <= |sizes|
    decreases e - a
  {
    if a == e then 0 else Bytes(sizes, a, e - 1) + sizes[e - 1]
  }

  /** A batch within both limits; a single document may exceed the payload limit. */
  predicate Feasible(sizes: seq<nat>, batchSize: nat, a: nat, e: nat)
    requires a <= e <= |sizes|
  {
    a < e && (e == a + 1 || (e - a <= batchSize && Bytes(sizes, a, e) <= MAXIMUM_SEED_BATCH_PAYLOAD_BYTES))
  }

  /** Batch `i` is feasible, and could not have taken the next document as well when `maximal`. */
  predicate Batch(sizes: seq<nat>, batchSize: nat, cuts: seq<nat>, maximal: bool, i: nat)
    requires i + 1 < |cuts|
  {
    var a, e := cuts[i], cuts[i + 1];
    && a < e <= |sizes| && Feasible(sizes, batchSize, a, e)
    && (maximal && e < |sizes| ==> !Feasible(sizes, batchSize, a, e + 1))
  }

  /** Batch boundaries `0 = cuts[0] < cuts[1] < ...`. */
  ghost predicate Partition(sizes: seq<nat>, batchSize: nat, cuts: seq<nat>, maximal: bool) {
    && cuts != [] && cuts[0] == 0 && cuts[|cuts| - 1] <= |sizes|
    && (forall i: nat :: i + 1 < |cuts| ==> Batch(sizes, batchSize, cuts, maximal, i))
  }

  ghost predicate Covers(sizes: seq<nat>, cuts: seq<nat>) { cuts != [] && cuts[|cuts| - 1] == |sizes| }

  lemma {:induction false} BytesGrow(sizes: seq<nat>, a: nat, b: nat, c: nat, d: nat)
    requires a <= b <= c <= d <= |sizes|
    ensures Bytes(sizes, b, c) <= Bytes(sizes, a, d)
    decreases d - a
  {
    if c < d {
      BytesGrow(sizes, a, b, c, d - 1);
    } else if b < c {
      BytesGrow(sizes, a, b, c - 1, d - 1);
    }
  }

  /** Part of a feasible batch is feasible. */
  lemma FeasiblePart(sizes: seq<nat>, batchSize: nat, a: nat, b: nat, c: nat, d: nat)
    requires a <= b < c <= d <= |sizes| && Feasible(sizes, batchSize, a, d)
    ensures Feasible(sizes, batchSize, b, c)
  {
    BytesGrow(sizes, a, b, c, d);
  }

  /** The greedy cuts are never behind those of another partition. */
  lemma {:induction false} StaysAhead(sizes: seq<nat>, batchSize: nat, cuts: seq<nat>, other: seq<nat>, i: nat)
    requires Partition(sizes, batchSize, cuts, true) && Partition(sizes, batchSize, other, false)
    requires i < |cuts| && i < |other|
    ensures other[i] <= cuts[i]
  {
    if i > 0 {
      StaysAhead(sizes, batchSize, cuts, other, i - 1);
      assert Batch(sizes, batchSize, cuts, true, i - 1) && Batch(sizes, batchSize, other, false, i - 1);
      if cuts[i] < other[i] {
        FeasiblePart(sizes, batchSize, other[i - 1], cuts[i - 1], cuts[i] + 1, other[i]);
      }
    }
  }

  lemma {:induction false} CutsIncrease(sizes: seq<nat>, batchSize: nat, cuts: seq<nat>, i: nat, j: nat)
    requires Partition(sizes, batchSize, cuts, true) && i < j < |cuts|
    ensures cuts[i] < cuts[j]
  {
    assert Batch(sizes, batchSize, cuts, true, j - 1);
    if i < j - 1 { CutsIncrease(sizes, batchSize, cuts, i, j - 1); }
  }

  /** No way of cutting the documents into feasible batches, in order, needs fewer of them. */
  lemma GreedyIsOptimal(sizes: seq<nat>, batchSize: nat, cuts: seq<nat>, other: seq<nat>)
    requires Partition(sizes, batchSize, cuts, true) && Covers(sizes, cuts)
    requires Partition(sizes, batchSize, other, false) && Covers(sizes, other)
    ensures |cuts| <= |other|
  {
    if |other| < |cuts| {
      StaysAhead(sizes, batchSize, cuts, other, |other| - 1);
      CutsIncrease(sizes, batchSize, cuts, |other| - 1, |cuts| - 1);
    }
  }

  /** A batch that cannot take the next document may be closed. */
  lemma Extended(sizes: seq<nat>, batchSize: nat, cuts: seq<nat>, e: nat)
    requires Partition(sizes, batchSize, cuts, true)
    requires cuts[|cuts| - 1] <= e <= |sizes| && Feasible(sizes, batchSize, cuts[|cuts| - 1], e)
    requires e < |sizes| ==> !Feasible(sizes, batchSize, cuts[|cuts| - 1], e + 1)
    ensures Partition(sizes, batchSize, cuts + [e], true)
  {
    var more := cuts + [e];
    forall i: nat | i + 1 < |more| ensures Batch(sizes, batchSize, more, true, i) {
      if i + 1 < |cuts| { assert Batch(sizes, batchSize, cuts, true, i); }
    }
  }

  predicate Rejects(rejected: seq<bool>, a: nat, e: nat)
    requires e <= |rejected|
  {
    exists i :: a <= i < e && rejected[i]
  }

  /**
   * `rejected[i]`: the write of document `i` is refused; `noticed[i]`: refusals among the writes in flight are
   * reported before the check that ends round `i`. A drain always learns of them. The result is thrown when
   * `failed`; `written` documents have been handed to the writer by then.
   */
  method SeedWorkingSet(sizes: seq<nat>, batchSize: nat, rejected: seq<bool>, noticed: seq<bool>)
    returns (cuts: seq<nat>, written: nat, failed: bool)
    requires |rejected| == |noticed| == |sizes|
    ensures Partition(sizes, batchSize, cuts, true) && written <= |sizes|
    ensures failed <==> Rejects(rejected, 0, |sizes|)
    ensures !failed ==> written == |sizes| && Covers(sizes, cuts)
    ensures forall other :: !failed && Partition(sizes, batchSize, other, false) && Covers(sizes, other) ==>
      |cuts| <= |other|
    ensures failed ==>
      var start := cuts[|cuts| - 1];
      && start <= written && Feasible(sizes, batchSize, start, written)
      && !Rejects(rejected, 0, start) && Rejects(rejected, start, written)
  {
    cuts, written, failed := [0], 0, false;
    var start, pendingBytes := 0, 0;
    for ordinal := 0 to |sizes|
      invariant Partition(sizes, batchSize, cuts, true)
      invariant start == cuts[|cuts| - 1] <= ordinal == written && !failed
      invariant pendingBytes == Bytes(sizes, start, ordinal)
      invariant start < ordinal ==> Feasible(sizes, batchSize, start, ordinal) && ordinal - start < batchSize
      invariant !Rejects(rejected, 0, start)
    {
      if ordinal > start && pendingBytes + sizes[ordinal] > MAXIMUM_SEED_BATCH_PAYLOAD_BYTES {
        if Rejects(rejected, start, ordinal) { failed := true; return; }
        Extended(sizes, batchSize, cuts, ordinal);
        cuts := cuts + [ordinal];
        start, pendingBytes := ordinal, 0;
      }
      pendingBytes := pendingBytes + sizes[ordinal];
      written := ordinal + 1;
      if written - start >= batchSize {
        if Rejects(rejected, start, written) { failed := true; return; }
        Extended(sizes, batchSize, cuts, written);
        cuts := cuts + [written];
        start, pendingBytes := written, 0;
      }
      if noticed[ordinal] && Rejects(rejected, start, written) { failed := true; return; }
    }
    if Rejects(rejected, start, written) { failed := true; return; }
    if start < written {
      Extended(sizes, batchSize, cuts, written);
      cuts := cuts + [written];
    }
    forall other | Partition(sizes, batchSize, other, false) && Covers(sizes, other) ensures |cuts| <= |other| {
      GreedyIsOptimal(sizes, batchSize, cuts, other);
    }
  }
}
