/** The galloping search with which the high-frequency cursors advance. */
module Gallop {
  import opened Options
  import opened Arithmetic

  const I32_MAX: int := 0x7fff_ffff

  ghost predicate Ascending(docs: seq<int>) {
    forall i, j :: 0 <= i < j < |docs| ==> docs[i] < docs[j]
  }

  /** Stepping one document at a time: the first one at or after the target. */
  function FirstAtLeast(docs: seq<int>, from: nat, target: int): (r: nat)
    requires from <= |docs|
    ensures from <= r <= |docs|
    ensures forall i :: from <= i < r ==> docs[i] < target
    ensures r < |docs| ==> docs[r] >= target
    decreases |docs| - from
  {
    if from == |docs| || docs[from] >= target then from else FirstAtLeast(docs, from + 1, target)
  }

  /** The step before probe k is made: 10, 20, 40, ... */
  function Inc(k: nat): (r: nat)
    ensures r >= 10
  {
    if k == 0 then 10 else 2 * Inc(k - 1)
  }

  /** The index of probe k. */
  function Probe(start: nat, k: nat): nat {
    if k == 0 then start + 10 else Probe(start, k - 1) + Inc(k)
  }

  lemma {:induction false} ProbeDoubles(start: nat, k: nat)
    ensures 2 * Inc(k) == Probe(start, k) - start + 10
    ensures Probe(start, k + 1) == 2 * Probe(start, k) - start + 10
  {
    if k > 0 { ProbeDoubles(start, k - 1); }
    assert Probe(start, k + 1) == Probe(start, k) + Inc(k + 1);
  }

  /** The index of some probe that has to be made is no 32-bit integer. */
  ghost predicate ProbeOverflows(docs: seq<int>, start: nat, target: int) {
    Probe(start, 0) > I32_MAX || exists k: nat :: OverflowsAfter(docs, start, target, k)
  }

  ghost predicate OverflowsAfter(docs: seq<int>, start: nat, target: int, k: nat) {
    Probe(start, k) < |docs| && docs[Probe(start, k)] < target && Probe(start, k + 1) > I32_MAX
  }

  lemma {:induction false} ProbeMonotone(start: nat, i: nat, k: nat)
    requires i <= k
    ensures Probe(start, i) <= Probe(start, k)
    decreases k
  {
    if i < k { ProbeMonotone(start, i, k - 1); }
  }

  /** Lists of up to 2^30 - 5 documents are safe, whatever is asked of them. */
  lemma ShortListsAreSafe(docs: seq<int>, start: nat, target: int)
    requires start < |docs| <= 0x4000_0000 - 5
    ensures !ProbeOverflows(docs, start, target)
  {
    forall k: nat ensures !OverflowsAfter(docs, start, target, k) {
      ProbeDoubles(start, k);
    }
  }

  lemma Pow2Nine(k: nat)
    ensures Pow2(k + 9) == 512 * Pow2(k)
  {
    assert Pow2(k + 3) == 2 * Pow2(k + 2) == 4 * Pow2(k + 1) == 8 * Pow2(k);
    assert Pow2(k + 6) == 2 * Pow2(k + 5) == 4 * Pow2(k + 4) == 8 * Pow2(k + 3);
    assert Pow2(k + 9) == 2 * Pow2(k + 8) == 4 * Pow2(k + 7) == 8 * Pow2(k + 6);
  }

  lemma {:induction false} ProbeValues(k: nat)
    ensures Inc(k) == 10 * Pow2(k) && Probe(0, k) == 10 * (Pow2(k + 1) - 1)
  {
    if k > 0 { ProbeValues(k - 1); }
    assert Pow2(k + 1) == 2 * Pow2(k);
  }

  /** Longer lists are not: searching 1342177271 consecutive documents for one that is
      not there overflows. */
  lemma LongListOverflows()
    ensures ProbeOverflows(seq(1342177271, i => i), 0, I32_MAX)
  {
    OverflowsAfterProbe(0);
  }

  lemma {:induction false} OverflowsAfterProbe(j: nat)
    requires Pow2(j) == 1
    ensures ProbeOverflows(seq(1342177271, i => i), 0, I32_MAX)
  {
    ProbeValues(j + 26);
    Pow2Nine(j);
    Pow2Nine(j + 9);
    Pow2Nine(j + 18);
    assert Probe(0, j + 26) == 1342177270;
    ProbeDoubles(0, j + 26);
    assert OverflowsAfter(seq(1342177271, i => i), 0, I32_MAX, j + 26);
  }

  lemma {:induction false} FirstAtLeastIs(docs: seq<int>, from: nat, target: int, r: nat)
    requires from <= r <= |docs| && (r < |docs| ==> docs[r] >= target)
    requires forall i :: from <= i < r ==> docs[i] < target
    ensures FirstAtLeast(docs, from, target) == r
  {
    var f := FirstAtLeast(docs, from, target);
    assert f < |docs| ==> docs[f] >= target;
  }

  /** A sum in 32-bit arithmetic that wraps. */
  function Wrapped(x: int): int { (x + 0x8000_0000) % 0x1_0000_0000 - 0x8000_0000 }

  /** The middle of two indices: their wrapped sum, read as unsigned, shifted right. */
  function Midpoint(low: int, high: int): int {
    var sum := Wrapped(low + high);
    (if sum < 0 then sum + 0x1_0000_0000 else sum) / 2
  }

  /** Reading a sum that wrapped as unsigned undoes the wrapping. */
  lemma MidpointIs(low: int, high: int)
    requires 0 <= low <= high <= I32_MAX
    ensures Midpoint(low, high) == (low + high) / 2
  {
    var sum := low + high;
    assert Wrapped(sum) == if sum <= I32_MAX then sum else sum - 0x1_0000_0000;
  }

  /** Where the target must lie, after probes at growing distances. */
  ghost predicate Window(docs: seq<int>, start: nat, target: int, low: int, high: int) {
    && start <= low <= |docs| && low - 1 <= high < |docs|
    && (forall i :: start <= i < low ==> docs[i] < target)
    && (forall i :: high < i < |docs| ==> docs[i] >= target)
  }

  /** Binary search over the window found by the probes. */
  method Search(docs: seq<int>, start: nat, low0: nat, high0: int, target: int) returns (upto: nat)
    requires Ascending(docs) && |docs| <= I32_MAX && Window(docs, start, target, low0, high0)
    ensures upto == FirstAtLeast(docs, start, target)
  {
    var low, high := low0, high0;
    while low <= high
      invariant Window(docs, start, target, low, high)
      decreases high - low
    {
      MidpointIs(low, high);
      var mid := Midpoint(low, high);
      var cmp := docs[mid] - target;
      if cmp < 0 {
        low := mid + 1;
      } else if cmp > 0 {
        high := mid - 1;
      } else {
        FirstAtLeastIs(docs, start, target, mid);
        return mid;
      }
    }
    FirstAtLeastIs(docs, start, target, low);
    upto := low;
  }

  method FindWindow(docs: seq<int>, start: nat, target: int) returns (w: Option<(nat, int)>)
    requires Ascending(docs) && start < |docs| <= I32_MAX
    ensures w.Some? ==> Window(docs, start, target, w.value.0, w.value.1)
    ensures w.None? <==> ProbeOverflows(docs, start, target)
  {
    var inc, nextUpto := 10, start + 10;
    if nextUpto > I32_MAX { return None; }
    ghost var k := 0;
    while nextUpto < |docs| && docs[nextUpto] < target
      invariant inc == Inc(k) && nextUpto == Probe(start, k) <= I32_MAX
      invariant start <= nextUpto - inc < |docs|
      invariant k > 0 ==> nextUpto - inc == Probe(start, k - 1) && docs[nextUpto - inc] < target
      invariant k == 0 ==> nextUpto - inc == start
      decreases |docs| - nextUpto
    {
      k := k + 1;
      inc := inc * 2;
      nextUpto := nextUpto + inc;
      if nextUpto > I32_MAX {
        assert OverflowsAfter(docs, start, target, k - 1);
        return None;
      }
    }
    StoppedInTime(docs, start, target, k);
    var high := if nextUpto >= |docs| then |docs| - 1 else nextUpto;
    return Some((nextUpto - inc, high));
  }

  /** Once a probe has hit the end or a document not before the target, no later one is
      made; those before it stayed in range. */
  lemma {:induction false} StoppedInTime(docs: seq<int>, start: nat, target: int, k: nat)
    requires Probe(start, k) <= I32_MAX
    requires Probe(start, k) >= |docs| || (docs[Probe(start, k)] >= target && Ascending(docs))
    ensures !ProbeOverflows(docs, start, target)
  {
    ProbeMonotone(start, 0, k);
    forall i: nat ensures !OverflowsAfter(docs, start, target, i) {
      if i >= k { ProbeMonotone(start, k, i); } else { ProbeMonotone(start, i + 1, k); }
    }
  }

  /** Gallops from start, then searches: lands where stepping would, or fails exactly
      when a probe index overflows. */
  method Advance(docs: seq<int>, start: nat, target: int) returns (r: Option<nat>)
    requires Ascending(docs) && start < |docs| <= I32_MAX
    ensures r.Some? ==> r.value == FirstAtLeast(docs, start, target)
    ensures r.None? <==> ProbeOverflows(docs, start, target)
  {
    var w := FindWindow(docs, start, target);
    if w.None? { return None; }
    var upto := Search(docs, start, w.value.0, w.value.1, target);
    return Some(upto);
  }
}
