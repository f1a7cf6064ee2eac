/** What the skip table of a field means: for every term, by increasing prefix
    length, where the long runs of equal prefixes starting at that term end. */
module SkipTable {
  import opened Terms

  /** Bytes shared with the preceding term; 0 before the first and after the last. */
  function AdjLcp(ts: seq<Term>, t: nat): (l: nat)
    requires t <= |ts|
    ensures t < |ts| ==> l <= |ts[t]|
    ensures 0 < t ==> l <= |ts[t - 1]|
  {
    if t == 0 || t == |ts| then 0 else Lcp(ts[t - 1], ts[t])
  }

  function RunEndFrom(ts: seq<Term>, j: nat, d: nat): (e: nat)
    requires j <= |ts|
    ensures j <= e <= |ts|
    ensures e == |ts| || AdjLcp(ts, e) < d
    ensures forall i :: j <= i < e ==> AdjLcp(ts, i) >= d
    decreases |ts| - j
  {
    if j == |ts| || AdjLcp(ts, j) < d then j else RunEndFrom(ts, j + 1, d)
  }

  /** The ordinal just past the run of terms that share d bytes, seen from t. */
  function RunEnd(ts: seq<Term>, t: nat, d: nat): (e: nat)
    requires t < |ts|
    ensures t < e <= |ts|
    ensures e == |ts| || AdjLcp(ts, e) < d
    ensures forall i :: t < i < e ==> AdjLcp(ts, i) >= d
  {
    RunEndFrom(ts, t + 1, d)
  }

  /** The first ordinal of the run of terms that share d bytes, seen from t. */
  function RunStart(ts: seq<Term>, t: nat, d: nat): (s: nat)
    requires t < |ts|
    ensures s <= t
    ensures s == 0 || AdjLcp(ts, s) < d
    ensures forall i :: s < i <= t ==> AdjLcp(ts, i) >= d
  {
    if t == 0 || AdjLcp(ts, t) < d then t else RunStart(ts, t - 1, d)
  }

  /** Ends of the runs deeper than d that have at least minSkip members, by depth. */
  function RunEndsAbove(ts: seq<Term>, t: nat, minSkip: int, d: nat): (ends: seq<nat>)
    requires t < |ts|
    decreases |ts[t]| - d
  {
    if d >= |ts[t]| then []
    else (if RunEnd(ts, t, d + 1) - t >= minSkip then [RunEnd(ts, t, d + 1)] else [])
         + RunEndsAbove(ts, t, minSkip, d + 1)
  }

  /** The skip list of term t. Only prefixes longer than what t shares with its
      predecessor start a run at t. */
  function SkipList(ts: seq<Term>, t: nat, minSkip: int): (ends: seq<nat>)
    requires t < |ts|
  {
    RunEndsAbove(ts, t, minSkip, AdjLcp(ts, t))
  }

  // ----- runs in terms of prefixes

  lemma RunEndUnique(ts: seq<Term>, t: nat, d: nat, e: nat)
    requires t < e <= |ts|
    requires e == |ts| || AdjLcp(ts, e) < d
    requires forall i :: t < i < e ==> AdjLcp(ts, i) >= d
    ensures RunEnd(ts, t, d) == e
  {
    var r := RunEnd(ts, t, d);
    assert r < |ts| ==> AdjLcp(ts, r) < d;
    assert e < |ts| ==> AdjLcp(ts, e) < d;
  }

  /** A run is exactly a maximal block of terms with the same first d bytes. */
  lemma {:induction false} RunShares(ts: seq<Term>, t: nat, d: nat, j: nat)
    requires t <= j < |ts| && d <= |ts[t]|
    ensures j < RunEnd(ts, t, d) ==> SharesPrefix(ts[t], ts[j], d)
    ensures j == RunEnd(ts, t, d) ==> !SharesPrefix(ts[j - 1], ts[j], d)
    decreases j - t
  {
    if t < j <= RunEnd(ts, t, d) {
      RunShares(ts, t, d, j - 1);
      SharesIffLcp(ts[j - 1], ts[j], d);
      assert j < RunEnd(ts, t, d) ==> AdjLcp(ts, j) >= d;
    }
  }

  lemma RunEndAntitone(ts: seq<Term>, t: nat, d: nat, d': nat)
    requires t < |ts| && d <= d'
    ensures RunEnd(ts, t, d') <= RunEnd(ts, t, d)
  {
    var e := RunEnd(ts, t, d);
    assert e < |ts| ==> AdjLcp(ts, e) < d;
  }

  /** Inside a run every member sees the same end. */
  lemma RunEndSame(ts: seq<Term>, t: nat, d: nat, t': nat)
    requires t <= t' < |ts| && t' < RunEnd(ts, t, d)
    ensures RunEnd(ts, t', d) == RunEnd(ts, t, d)
  {
    RunEndUnique(ts, t', d, RunEnd(ts, t, d));
  }

  // ----- the skip list element by element

  /** ends lists, from depth base + 1 on, the ends of exactly the runs starting at t
      that have at least minSkip members. */
  predicate ListsLongRuns(ts: seq<Term>, t: nat, minSkip: int, base: nat, ends: seq<nat>)
    requires t < |ts|
  {
    && base + |ends| <= |ts[t]|
    && (forall k :: 0 <= k < |ends| ==> ends[k] == RunEnd(ts, t, base + k + 1))
    && (forall d :: base < d <= |ts[t]| ==> (RunEnd(ts, t, d) - t >= minSkip <==> d <= base + |ends|))
  }

  lemma {:induction false} RunEndsAboveAt(ts: seq<Term>, t: nat, minSkip: int, d: nat)
    requires t < |ts| && d <= |ts[t]|
    ensures ListsLongRuns(ts, t, minSkip, d, RunEndsAbove(ts, t, minSkip, d))
    decreases |ts[t]| - d
  {
    if d < |ts[t]| {
      var rest := RunEndsAbove(ts, t, minSkip, d + 1);
      RunEndsAboveAt(ts, t, minSkip, d + 1);
      var ends := RunEndsAbove(ts, t, minSkip, d);
      forall q | d < q <= |ts[t]|
        ensures RunEnd(ts, t, q) <= RunEnd(ts, t, d + 1)
      {
        RunEndAntitone(ts, t, d + 1, q);
      }
      if RunEnd(ts, t, d + 1) - t >= minSkip {
        assert ends == [RunEnd(ts, t, d + 1)] + rest;
        assert forall k :: 0 < k < |ends| ==> ends[k] == rest[k - 1];
      } else {
        assert ends == rest;
        assert d + 1 < |ts[t]| ==> RunEnd(ts, t, d + 2) - t < minSkip;
        assert rest == [];
      }
    }
  }

  /** The meaning of the table for one term: its long runs are the shallow ones, so
      entry k belongs to the prefix of AdjLcp + k + 1 bytes and none is left out. */
  lemma SkipListMeaning(ts: seq<Term>, t: nat, minSkip: int)
    requires t < |ts|
    ensures var base, ends := AdjLcp(ts, t), SkipList(ts, t, minSkip);
            && base + |ends| <= |ts[t]|
            && (forall k :: 0 <= k < |ends| ==> ends[k] == RunEnd(ts, t, base + k + 1))
            && (forall d :: base < d <= |ts[t]| ==> (RunEnd(ts, t, d) - t >= minSkip <==> d <= base + |ends|))
  {
    RunEndsAboveAt(ts, t, minSkip, AdjLcp(ts, t));
  }

  lemma SkipEntry(ts: seq<Term>, t: nat, minSkip: int, j: nat)
    requires t < |ts| && j < |SkipList(ts, t, minSkip)|
    ensures AdjLcp(ts, t) + j + 1 <= |ts[t]|
    ensures SkipList(ts, t, minSkip)[j] == RunEnd(ts, t, AdjLcp(ts, t) + j + 1)
  {
    SkipListMeaning(ts, t, minSkip);
  }
}
