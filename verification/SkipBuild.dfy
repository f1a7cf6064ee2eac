/** Why counting shared prefixes term by term yields the skip lists: the pointers
    saved so far, described in closed form after every step of the build. */
module SkipBuild {
  import opened Arithmetic
  import opened Terms
  import opened SkipTable

  function Repeat(x: nat, n: int): (r: seq<nat>)
    ensures |r| == Max(n, 0)
    ensures forall i :: 0 <= i < |r| ==> r[i] == x
  {
    seq(Max(n, 0), _ => x)
  }

  function Reverse(s: seq<nat>): (r: seq<nat>)
    ensures |r| == |s|
    ensures forall i :: 0 <= i < |s| ==> r[i] == s[|s| - 1 - i]
  {
    seq(|s|, i requires 0 <= i < |s| => s[|s| - 1 - i])
  }

  /** The longest prefix shared by the terms s, .., c - 1 (all of s when alone). */
  function Shared(ts: seq<Term>, s: nat, c: nat): nat
    requires s < |ts| && s < c <= |ts| + 1
  {
    if c == s + 1 then |ts[s]| else Min(Shared(ts, s, c - 1), AdjLcp(ts, c - 1))
  }

  /** What reaching ordinal e adds to term s once the depths up to limit are done. */
  function ClosedAt(ts: seq<Term>, s: nat, e: nat, minSkip: int, limit: nat): seq<nat>
    requires s < e <= |ts|
  {
    if e - s >= minSkip
    then Repeat(e, Min(limit, Shared(ts, s, e)) - Max(AdjLcp(ts, s), AdjLcp(ts, e)))
    else []
  }

  /** The pointers term s holds when the ordinals below c have been processed. */
  function Pending(ts: seq<Term>, s: nat, c: nat, minSkip: int): seq<nat>
    requires s < |ts| && s < c <= |ts| + 1
  {
    if c == s + 1 then []
    else Pending(ts, s, c - 1, minSkip) + ClosedAt(ts, s, c - 1, minSkip, |ts[c - 2]|)
  }

  /** A count of e - s at depth d says that the run of that depth started at s. */
  lemma {:induction false} RunStartIff(ts: seq<Term>, s: nat, e: nat, d: nat)
    requires s < e <= |ts| && 1 <= d <= |ts[e - 1]|
    ensures RunStart(ts, e - 1, d) == s <==> AdjLcp(ts, s) < d <= Shared(ts, s, e)
    decreases e
  {
    if s < e - 1 && d <= AdjLcp(ts, e - 1) {
      RunStartIff(ts, s, e - 1, d);
    }
  }

  lemma ClosedStep(ts: seq<Term>, s: nat, e: nat, minSkip: int, limit: nat)
    requires s < e <= |ts| && AdjLcp(ts, e) <= limit < |ts[e - 1]|
    ensures ClosedAt(ts, s, e, minSkip, limit + 1)
         == ClosedAt(ts, s, e, minSkip, limit)
            + (if RunStart(ts, e - 1, limit + 1) == s && e - s >= minSkip then [e] else [])
  {
    RunStartIff(ts, s, e, limit + 1);
  }

  // ----- from the pointers saved to the skip lists

  lemma {:induction false} ReverseAppendRepeat(p: seq<nat>, x: nat, n: int)
    ensures Reverse(p + Repeat(x, n)) == Repeat(x, n) + Reverse(p)
  {
    var l, r := Reverse(p + Repeat(x, n)), Repeat(x, n) + Reverse(p);
    assert forall i :: 0 <= i < |l| ==> l[i] == r[i];
  }

  lemma Associative(a: seq<nat>, b: seq<nat>, c: seq<nat>)
    ensures a + (b + c) == (a + b) + c
  {
  }

  lemma RepeatFront(x: nat, n: int)
    requires n > 0
    ensures Repeat(x, n) == [x] + Repeat(x, n - 1)
  {
  }

  /** Prefix lengths whose runs end together contribute equal pointers. */
  lemma {:induction false} RunEndsAboveBlock(ts: seq<Term>, s: nat, minSkip: int, e: nat, lo: nat, hi: nat)
    requires s < |ts| && lo <= hi <= |ts[s]|
    requires forall d :: lo < d <= hi ==> RunEnd(ts, s, d) == e
    ensures RunEndsAbove(ts, s, minSkip, lo)
         == (if e - s >= minSkip then Repeat(e, hi - lo) else []) + RunEndsAbove(ts, s, minSkip, hi)
    decreases hi - lo
  {
    if lo < hi {
      RunEndsAboveBlock(ts, s, minSkip, e, lo + 1, hi);
      assert RunEnd(ts, s, lo + 1) == e;
      if e - s >= minSkip {
        RepeatFront(e, hi - lo);
        Associative([e], Repeat(e, hi - lo - 1), RunEndsAbove(ts, s, minSkip, hi));
      }
    }
  }

  lemma {:induction false} SharedBelow(ts: seq<Term>, s: nat, e: nat, i: nat)
    requires s < i < e <= |ts| + 1 && s < |ts|
    ensures Shared(ts, s, e) <= AdjLcp(ts, i)
    decreases e
  {
    if i < e - 1 { SharedBelow(ts, s, e - 1, i); }
  }

  lemma {:induction false} SharedAtMostLast(ts: seq<Term>, s: nat, e: nat)
    requires s < e <= |ts|
    ensures Shared(ts, s, e) <= |ts[s]| && Shared(ts, s, e) <= |ts[e - 1]|
    decreases e
  {
    if s < e - 1 { SharedAtMostLast(ts, s, e - 1); }
  }

  /** Depths that are shared up to e but not at e belong to runs that end there. */
  lemma {:induction false} EndsHere(ts: seq<Term>, s: nat, e: nat, d: nat)
    requires s < e <= |ts| && AdjLcp(ts, e) < d <= Shared(ts, s, e)
    ensures RunEnd(ts, s, d) == e
  {
    forall i | s < i < e ensures AdjLcp(ts, i) >= d { SharedBelow(ts, s, e, i); }
    RunEndUnique(ts, s, d, e);
  }

  /** The depth above which the runs starting at s have ended before ordinal c. */
  function Open(ts: seq<Term>, s: nat, c: nat): nat
    requires s < |ts| && s < c <= |ts| + 1
  {
    Max(AdjLcp(ts, s), Shared(ts, s, c))
  }

  lemma OpenStep(ts: seq<Term>, s: nat, e: nat)
    requires s < e <= |ts|
    ensures Open(ts, s, e + 1) <= Open(ts, s, e) <= |ts[s]|
    ensures Max(Shared(ts, s, e) - Max(AdjLcp(ts, s), AdjLcp(ts, e)), 0)
         == Open(ts, s, e) - Open(ts, s, e + 1)
    ensures forall d :: Open(ts, s, e + 1) < d <= Open(ts, s, e) ==> RunEnd(ts, s, d) == e
  {
    SharedAtMostLast(ts, s, e);
    forall d | Open(ts, s, e + 1) < d <= Open(ts, s, e) ensures RunEnd(ts, s, d) == e {
      EndsHere(ts, s, e, d);
    }
  }

  /** What closing all prefixes at e saves for the runs starting at s: one pointer for
      each depth that was open before and is not after. */
  lemma ClosedIs(ts: seq<Term>, s: nat, e: nat, minSkip: int, lo: nat, hi: nat, limit: nat)
    requires s < e <= |ts| && lo == Open(ts, s, e + 1) && hi == Open(ts, s, e) && limit == |ts[e - 1]|
    ensures lo <= hi <= |ts[s]|
    ensures ClosedAt(ts, s, e, minSkip, limit) == if e - s >= minSkip then Repeat(e, hi - lo) else []
  {
    OpenStep(ts, s, e);
    SharedAtMostLast(ts, s, e);
    RepeatSame(e, Shared(ts, s, e) - Max(AdjLcp(ts, s), AdjLcp(ts, e)), hi - lo);
  }

  lemma {:induction false} EndsAboveStep(ts: seq<Term>, s: nat, e: nat, minSkip: int, lo: nat, hi: nat)
    requires s < e <= |ts| && lo == Open(ts, s, e + 1) && hi == Open(ts, s, e)
    ensures RunEndsAbove(ts, s, minSkip, lo)
         == (if e - s >= minSkip then Repeat(e, hi - lo) else []) + RunEndsAbove(ts, s, minSkip, hi)
  {
    OpenStep(ts, s, e);
    RunEndsAboveBlock(ts, s, minSkip, e, lo, hi);
  }

  lemma {:induction false} PendingNext(ts: seq<Term>, s: nat, e: nat, c: nat, minSkip: int, limit: nat)
    requires s < e <= |ts| && c == e + 1 && limit == |ts[e - 1]|
    ensures Pending(ts, s, c, minSkip) == Pending(ts, s, e, minSkip) + ClosedAt(ts, s, e, minSkip, limit)
  {
  }

  /** Appending equal pointers puts them in front of the reversed list. */
  lemma PendingStep(p: seq<nat>, x: nat, n: int, more: seq<nat>, ends: seq<nat>)
    requires (more == Repeat(x, n) || more == []) && Reverse(p) == ends
    ensures Reverse(p + more) == more + ends
  {
    if more == Repeat(x, n) { ReverseAppendRepeat(p, x, n); } else { assert p + more == p && more + ends == ends; }
  }

  /** After c ordinals, the saved pointers reversed are the ends of all runs deeper
      than what is still open. */
  lemma {:induction false} PendingReversed(ts: seq<Term>, s: nat, c: nat, minSkip: int)
    requires s < |ts| && s < c <= |ts| + 1
    ensures Reverse(Pending(ts, s, c, minSkip)) == RunEndsAbove(ts, s, minSkip, Open(ts, s, c))
    decreases c
  {
    if s + 1 < c {
      var e := c - 1;
      var lo, hi, limit := Open(ts, s, c), Open(ts, s, e), |ts[c - 2]|;
      var p, more, ends := Pending(ts, s, e, minSkip), ClosedAt(ts, s, e, minSkip, limit), RunEndsAbove(ts, s, minSkip, hi);
      assert Reverse(p) == ends by { PendingReversed(ts, s, e, minSkip); }
      ClosedIs(ts, s, e, minSkip, lo, hi, limit);
      EndsAboveStep(ts, s, e, minSkip, lo, hi);
      PendingNext(ts, s, e, c, minSkip, limit);
      PendingStep(p, e, hi - lo, more, ends);
    }
  }

  lemma RepeatSame(x: nat, n: int, m: int)
    requires Max(n, 0) == Max(m, 0)
    ensures Repeat(x, n) == Repeat(x, m)
  {
  }

  /** Reversing what was saved gives each term its skip list. */
  lemma {:induction false} PendingIsSkipList(ts: seq<Term>, s: nat, minSkip: int)
    requires s < |ts|
    ensures Reverse(Pending(ts, s, |ts| + 1, minSkip)) == SkipList(ts, s, minSkip)
  {
    PendingReversed(ts, s, |ts| + 1, minSkip);
    SharedBelow(ts, s, |ts| + 1, |ts|);
  }
}
