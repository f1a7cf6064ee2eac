/** The automaton a terms enumeration is intersected with: deterministic, start state
    0, with the labels leaving each state given as ascending ranges. */
module Automata {
  import opened Options
  import opened Terms

  datatype Range = Range(min: byte, max: byte)

  /** step gives -1 where no transition matches. */
  datatype Automaton = Automaton(
    ranges: int -> seq<Range>,
    step: (int, byte) -> int,
    accept: int -> bool)

  ghost predicate InRange(a: Automaton, s: int, c: byte) {
    exists r :: 0 <= r < |a.ranges(s)| && a.ranges(s)[r].min <= c <= a.ranges(s)[r].max
  }

  /** A label that can be stepped on lies in one of the ranges. A range may still hold
      labels that lead nowhere. */
  ghost predicate StepOk(a: Automaton, s: int, c: byte) {
    a.step(s, c) == -1 || (a.step(s, c) >= 0 && InRange(a, s, c))
  }

  /** Ranges are ascending and disjoint. */
  ghost predicate RangesOk(a: Automaton, s: int) {
    var rs := a.ranges(s);
    && (forall i, j :: 0 <= i < j < |rs| ==> rs[i].max < rs[j].min)
    && (forall i :: 0 <= i < |rs| ==> rs[i].min <= rs[i].max)
  }

  ghost predicate Deterministic(a: Automaton) {
    && (forall s: int, c: byte :: StepOk(a, s, c))
    && (forall s: int :: RangesOk(a, s))
  }

  /** The state after the first k bytes of w, or -1. */
  function RunTo(a: Automaton, w: Term, k: nat): (s: int)
    requires k <= |w|
  {
    if k == 0 then 0
    else if RunTo(a, w, k - 1) == -1 then -1
    else a.step(RunTo(a, w, k - 1), w[k - 1])
  }

  predicate Accepts(a: Automaton, w: Term) {
    RunTo(a, w, |w|) != -1 && a.accept(RunTo(a, w, |w|))
  }

  predicate EndsWith(w: Term, suffix: Term) {
    |suffix| <= |w| && w[|w| - |suffix|..] == suffix
  }

  lemma EndsWithIff(w: Term, suffix: Term)
    ensures EndsWith(w, suffix) <==> exists u: Term :: w == u + suffix
  {
    if EndsWith(w, suffix) {
      assert w == w[..|w| - |suffix|] + suffix;
    }
  }

  ghost predicate SuffixOk(a: Automaton, suffix: Term, w: Term) {
    Accepts(a, w) ==> exists u: Term :: w == u + suffix
  }

  /** Every accepted string ends with the suffix. */
  ghost predicate CommonSuffix(a: Automaton, suffix: Option<Term>) {
    suffix.Some? ==> forall w: Term :: SuffixOk(a, suffix.value, w)
  }

  /** The states from 0 on through which the bytes of a string lead, one by one. */
  ghost predicate IsPath(a: Automaton, w: Term, path: seq<int>) {
    && |path| == |w| + 1 && path[0] == 0 && -1 !in path
    && forall k :: 0 <= k < |w| ==> path[k + 1] == a.step(path[k], w[k])
  }

  /** A string is accepted exactly if such a path ends in an accepting state. */
  lemma AcceptsIff(a: Automaton, w: Term)
    ensures Accepts(a, w) <==> exists path: seq<int> :: IsPath(a, w, path) && a.accept(path[|w|])
  {
    if Accepts(a, w) {
      var path := RunPath(a, w);
    }
    forall path: seq<int> | IsPath(a, w, path) && a.accept(path[|w|]) ensures Accepts(a, w) {
      PathRuns(a, w, path, |w|);
    }
  }

  lemma RunPath(a: Automaton, w: Term) returns (path: seq<int>)
    requires RunTo(a, w, |w|) != -1
    ensures IsPath(a, w, path) && path[|w|] == RunTo(a, w, |w|)
  {
    path := seq(|w| + 1, k requires 0 <= k <= |w| => RunTo(a, w, k));
    forall k | 0 <= k <= |w| ensures path[k] != -1 { NeverDead(a, w, k); }
    forall k | 0 <= k < |w| ensures path[k + 1] == a.step(path[k], w[k]) { NeverDead(a, w, k); }
  }

  lemma {:induction false} NeverDead(a: Automaton, w: Term, k: nat)
    requires k <= |w| && RunTo(a, w, |w|) != -1
    ensures RunTo(a, w, k) != -1
  {
    if RunTo(a, w, k) == -1 { DeadStaysDead(a, w, k, |w|); }
  }

  lemma {:induction false} PathRuns(a: Automaton, w: Term, path: seq<int>, k: nat)
    requires k <= |w| && IsPath(a, w, path)
    ensures RunTo(a, w, k) == path[k]
    decreases k
  {
    if k > 0 {
      PathRuns(a, w, path, k - 1);
      var j := k - 1;
      assert path[j + 1] == a.step(path[j], w[j]) && path[j] in path;
    }
  }

  lemma {:induction false} RunShared(a: Automaton, v: Term, w: Term, k: nat)
    requires SharesPrefix(v, w, k)
    ensures RunTo(a, v, k) == RunTo(a, w, k)
    decreases k
  {
    if k > 0 {
      SharesShorter(v, w, k, k - 1);
      SharesByte(v, w, k, k - 1);
      RunShared(a, v, w, k - 1);
    }
  }

  lemma {:induction false} DeadStaysDead(a: Automaton, w: Term, k: nat, m: nat)
    requires k <= m <= |w| && RunTo(a, w, k) == -1
    ensures RunTo(a, w, m) == -1
    decreases m
  {
    if k < m { DeadStaysDead(a, w, k, m - 1); }
  }

  lemma {:induction false} DeadRejects(a: Automaton, w: Term, k: nat)
    requires k <= |w| && RunTo(a, w, k) == -1
    ensures !Accepts(a, w)
  {
    DeadStaysDead(a, w, k, |w|);
  }

  /** A readable string can be read byte by byte. */
  lemma LivePrefix(a: Automaton, w: Term, k: nat)
    requires Deterministic(a) && k < |w| && RunTo(a, w, |w|) != -1
    ensures RunTo(a, w, k) >= 0 && RunTo(a, w, k + 1) >= 0
    ensures RunTo(a, w, k + 1) == a.step(RunTo(a, w, k), w[k]) && InRange(a, RunTo(a, w, k), w[k])
  {
    if RunTo(a, w, k + 1) == -1 { DeadStaysDead(a, w, k + 1, |w|); }
    LiveStates(a, w, k);
    assert StepOk(a, RunTo(a, w, k), w[k]);
  }

  lemma {:induction false} LiveStates(a: Automaton, w: Term, k: nat)
    requires Deterministic(a) && k <= |w|
    ensures RunTo(a, w, k) >= -1
    decreases k
  {
    if k > 0 {
      LiveStates(a, w, k - 1);
      assert StepOk(a, RunTo(a, w, k - 1), w[k - 1]);
    }
  }

  lemma {:induction false} EndState(a: Automaton, w: Term, s: int)
    requires s == RunTo(a, w, |w|) && s != -1
    ensures Accepts(a, w) <==> a.accept(s)
  {
  }

  lemma StepLive(a: Automaton, s: int, c: byte)
    requires Deterministic(a)
    ensures a.step(s, c) >= -1
  {
    assert StepOk(a, s, c);
  }

  predicate Rejected(ts: seq<Term>, a: Automaton, m: nat)
    requires m < |ts|
  {
    !Accepts(a, ts[m])
  }

  predicate NoneAccepted(ts: seq<Term>, a: Automaton, lo: nat, hi: nat)
    requires hi <= |ts|
  {
    forall m: nat :: lo <= m < hi ==> Rejected(ts, a, m)
  }

  /** m is the first accepted term from an ordinal on, or the end if there is none. */
  ghost predicate IsNext(ts: seq<Term>, a: Automaton, from: nat, m: nat) {
    from <= m <= |ts| && NoneAccepted(ts, a, from, m) && (m < |ts| ==> Accepts(a, ts[m]))
  }

  /** The accepted terms from an ordinal on, in order. */
  function AcceptedFrom(ts: seq<Term>, a: Automaton, from: nat): seq<Term>
    requires from <= |ts|
    decreases |ts| - from
  {
    if from == |ts| then []
    else (if Accepts(a, ts[from]) then [ts[from]] else []) + AcceptedFrom(ts, a, from + 1)
  }

  lemma {:induction false} AcceptedFromFirst(ts: seq<Term>, a: Automaton, from: nat, m: nat)
    requires IsNext(ts, a, from, m)
    ensures AcceptedFrom(ts, a, from) == if m < |ts| then [ts[m]] + AcceptedFrom(ts, a, m + 1) else []
    decreases m - from
  {
    if from < m {
      assert Rejected(ts, a, from);
      AcceptedFromFirst(ts, a, from + 1, m);
      assert [] + AcceptedFrom(ts, a, from + 1) == AcceptedFrom(ts, a, from + 1);
    }
  }

  lemma TakesFirst(ts: seq<Term>, a: Automaton, from: nat, m: nat, r: Option<Term>)
    requires IsNext(ts, a, from, m) && r == if m < |ts| then Some(ts[m]) else None
    ensures r.None? ==> AcceptedFrom(ts, a, from) == []
    ensures r.Some? ==> m < |ts| && AcceptedFrom(ts, a, from) == [r.value] + AcceptedFrom(ts, a, m + 1)
  {
    AcceptedFromFirst(ts, a, from, m);
  }
}
