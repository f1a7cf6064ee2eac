/** The stack of automaton states a walk over the sorted terms keeps, and how each
    kind of move preserves what the stack promises. */
module WalkInvariant {
  import opened Options
  import opened Terms
  import opened SkipTable
  import opened Automata
  import opened DirectField

  /** One frame: the automaton state, how far its transitions have been consumed, and
      the ordinal at which the frame no longer applies. */
  datatype Frame = Frame(
    changeOrd: nat,
    state: int,
    transitionUpto: int,
    transitionCount: nat,
    transitionMin: int,
    transitionMax: int)

  /** The ranges consumed so far all lie below the byte the next term has at k. */
  ghost predicate CursorOk(a: Automaton, f: Frame, term: Term, k: nat)
    requires k <= |term|
  {
    var rs := a.ranges(f.state);
    && f.transitionCount == |rs|
    && -1 <= f.transitionUpto < |rs|
    && (f.transitionUpto == -1 ==> f.transitionMax == -1)
    && (f.transitionUpto >= 0 ==>
          f.transitionMin == rs[f.transitionUpto].min && f.transitionMax == rs[f.transitionUpto].max)
    && (if k < |term| then forall r :: 0 <= r < f.transitionUpto ==> rs[r].max < term[k]
        else f.transitionUpto == -1)
  }

  /** Frame k at term t: the state after k bytes of t, valid until the end of the run
      of terms that share the d >= k first bytes of t. */
  ghost predicate FrameOk(ts: seq<Term>, a: Automaton, f: Frame, k: nat, d: nat, t: nat)
    requires t < |ts|
  {
    && k <= d <= |ts[t]|
    && f.changeOrd == RunEnd(ts, t, d)
    && f.state >= 0 && f.state == RunTo(a, ts[t], k)
    && CursorOk(a, f, ts[t], k)
  }

  ghost predicate FrameAt(ts: seq<Term>, a: Automaton, fs: seq<Frame>, depths: seq<nat>, t: nat, base: nat, k: nat)
    requires t < |ts| && k < |fs| == |depths|
  {
    && fs[k].changeOrd >= t && fs[k].changeOrd > 0
    && (fs[k].changeOrd > t ==>
          && FrameOk(ts, a, fs[k], k, depths[k], t)
          && depths[k] <= AdjLcp(ts, t) + if k <= base then 0 else k - base)
  }

  /** A frame ends no later than a lower one. */
  ghost predicate Nested(fs: seq<Frame>, i: nat, k: nat)
    requires i < |fs| && k < |fs|
  {
    fs[k].changeOrd <= fs[i].changeOrd
  }

  /** The stack before term t is examined. Frames above base were pushed for t itself;
      frames that end at t are still to be popped. */
  ghost predicate StackOk(ts: seq<Term>, a: Automaton, fs: seq<Frame>, depths: seq<nat>, t: nat, base: nat)
    requires t < |ts|
  {
    && base < |fs| == |depths|
    && fs[0].changeOrd == |ts|
    && (forall i: nat, k: nat :: i <= k < |fs| ==> Nested(fs, i, k))
    && (forall k :: 0 <= k < |fs| ==> FrameAt(ts, a, fs, depths, t, base, k))
    && (base < |fs| - 1 ==> fs[|fs| - 1].changeOrd > t)
  }

  /** The stack is right for examining term t when skipUpto of the frames, those above
      base, were pushed for it. */
  ghost predicate WalkOk(ts: seq<Term>, a: Automaton, minSkip: int, fs: seq<Frame>, depths: seq<nat>, t: nat, base: nat, skipUpto: nat) {
    && t <= |ts| && |fs| == |depths| == base + 1 + skipUpto
    && (t < |ts| ==>
          && StackOk(ts, a, fs, depths, t, base)
          && skipUpto <= |SkipList(ts, t, minSkip)|
          && (skipUpto > 0 ==> |fs| - 1 < |ts[t]|))
  }

  /** What the walk relies on throughout: the field holds the sorted terms, and the
      automaton is deterministic and accepts nothing without its common suffix. */
  ghost predicate WalkSound(data: FieldData, ts: seq<Term>, a: Automaton, suffix: Option<Term>) {
    && |ts| > 0 && Represents(data, ts) && Sorted(ts)
    && Deterministic(a) && CommonSuffix(a, suffix)
  }

  lemma FrameMoves(ts: seq<Term>, a: Automaton, f: Frame, k: nat, d: nat, t: nat, t': nat)
    requires Sorted(ts) && t < t' < |ts| && FrameOk(ts, a, f, k, d, t) && t' < f.changeOrd
    ensures FrameOk(ts, a, f, k, d, t') && d <= AdjLcp(ts, t')
    ensures k < |ts[t']|
  {
    RunEndSame(ts, t, d, t');
    RunShares(ts, t, d, t');
    SharesShorter(ts[t], ts[t'], d, k);
    RunShared(a, ts[t], ts[t'], k);
    assert Before(ts, t, t');
    SortedByte(ts[t], ts[t'], k);
  }

  /** What the stack says of a frame that has not ended. */
  lemma FrameOf(ts: seq<Term>, a: Automaton, fs: seq<Frame>, depths: seq<nat>, t: nat, base: nat, k: nat)
    requires t < |ts| && StackOk(ts, a, fs, depths, t, base) && k < |fs| && fs[k].changeOrd != t
    ensures t < fs[k].changeOrd <= |ts|
    ensures FrameOk(ts, a, fs[k], k, depths[k], t)
    ensures depths[k] <= AdjLcp(ts, t) + if k <= base then 0 else k - base
  {
    assert FrameAt(ts, a, fs, depths, t, base, k);
  }

  /** Frame k holds for every term before its change ordinal: they share the first k bytes
      of the next term, and the frame's state is the one those bytes lead to. */
  lemma {:induction false} FrameShares(ts: seq<Term>, a: Automaton, fs: seq<Frame>, depths: seq<nat>, t: nat, base: nat, k: nat, m: nat)
    requires t < |ts| && StackOk(ts, a, fs, depths, t, base) && k < |fs| && t <= m < fs[k].changeOrd
    ensures m < |ts| && SharesPrefix(ts[t], ts[m], k) && fs[k].state == RunTo(a, ts[m], k)
  {
    FrameOf(ts, a, fs, depths, t, base, k);
    RunShares(ts, t, depths[k], m);
    SharesShorter(ts[t], ts[m], depths[k], k);
    RunShared(a, ts[t], ts[m], k);
  }

  /** The walk may jump to any later term up to the end of the top frame. */
  lemma StackMoves(ts: seq<Term>, a: Automaton, fs: seq<Frame>, depths: seq<nat>, t: nat, base: nat, t': nat)
    requires Sorted(ts) && t < t' < |ts| && StackOk(ts, a, fs, depths, t, base)
    requires t' <= fs[|fs| - 1].changeOrd
    ensures StackOk(ts, a, fs, depths, t', |fs| - 1)
  {
    var top := |fs| - 1;
    forall k | 0 <= k < |fs|
      ensures FrameAt(ts, a, fs, depths, t', top, k)
    {
      assert FrameAt(ts, a, fs, depths, t, base, k) && Nested(fs, k, top);
      if fs[k].changeOrd > t' { FrameMoves(ts, a, fs[k], k, depths[k], t, t'); }
    }
  }

  /** The lower frames alone are a stack again. */
  lemma StackPrefix(ts: seq<Term>, a: Automaton, fs: seq<Frame>, depths: seq<nat>, t: nat, base: nat, n: nat)
    requires t < |ts| && StackOk(ts, a, fs, depths, t, base) && 0 < n <= base + 1
    ensures StackOk(ts, a, fs[..n], depths[..n], t, n - 1)
  {
    forall i: nat, k: nat | i <= k < n ensures Nested(fs[..n], i, k) {
      assert Nested(fs, i, k);
    }
    var top := n - 1;
    forall k | 0 <= k < n
      ensures FrameAt(ts, a, fs[..n], depths[..n], t, top, k)
    {
      assert FrameAt(ts, a, fs, depths, t, base, k);
    }
  }

  /** While the top frame has not ended, the next term is longer than the part of the
      stack it did not push. */
  lemma BaseBelowTerm(ts: seq<Term>, a: Automaton, fs: seq<Frame>, depths: seq<nat>, t: nat, base: nat)
    requires Sorted(ts) && t < |ts| && |ts[t]| > 0 && StackOk(ts, a, fs, depths, t, base)
    requires fs[|fs| - 1].changeOrd != t
    ensures base <= AdjLcp(ts, t) < |ts[t]|
  {
    FrameOf(ts, a, fs, depths, t, base, |fs| - 1);
    assert Nested(fs, base, |fs| - 1);
    FrameOf(ts, a, fs, depths, t, base, base);
    if t > 0 { assert Before(ts, t - 1, t); }
  }

  /** The root frame covers all terms. */
  lemma RootFrame(ts: seq<Term>, a: Automaton, f: Frame)
    requires |ts| > 0 && f.changeOrd == |ts| && f.state == 0
    requires f.transitionUpto == -1 && f.transitionMax == -1 && f.transitionCount == |a.ranges(0)|
    ensures StackOk(ts, a, [f], [0], 0, 0)
  {
    assert FrameAt(ts, a, [f], [0], 0, 0, 0);
  }

  /** A skip pointer of t can be pushed as a frame one byte deeper. */
  lemma StackPushes(ts: seq<Term>, a: Automaton, fs: seq<Frame>, depths: seq<nat>, t: nat, base: nat, f: Frame, d: nat)
    requires t < |ts| && StackOk(ts, a, fs, depths, t, base) && fs[|fs| - 1].changeOrd > t
    requires base <= AdjLcp(ts, t) && d == AdjLcp(ts, t) + |fs| - base && d <= |ts[t]|
    requires FrameOk(ts, a, f, |fs|, d, t)
    ensures StackOk(ts, a, fs + [f], depths + [d], t, base)
  {
    var fs', depths' := fs + [f], depths + [d];
    assert FrameAt(ts, a, fs, depths, t, base, |fs| - 1);
    RunEndAntitone(ts, t, depths[|fs| - 1], d);
    forall i: nat, k: nat | i <= k < |fs'| ensures Nested(fs', i, k) {
      assert i < |fs| ==> Nested(fs, i, if k < |fs| then k else |fs| - 1);
    }
    forall k | 0 <= k < |fs'|
      ensures FrameAt(ts, a, fs', depths', t, base, k)
    {
      if k < |fs| {
        assert FrameAt(ts, a, fs, depths, t, base, k);
        assert fs'[k] == fs[k] && depths'[k] == depths[k];
      }
    }
  }

  /** Moving the cursor of the top frame over ranges below the byte of t is harmless. */
  lemma StackCursor(ts: seq<Term>, a: Automaton, fs: seq<Frame>, depths: seq<nat>, t: nat, base: nat, g: Frame)
    requires t < |ts| && StackOk(ts, a, fs, depths, t, base) && fs[|fs| - 1].changeOrd > t
    requires FrameOk(ts, a, g, |fs| - 1, depths[|fs| - 1], t) && g.changeOrd == fs[|fs| - 1].changeOrd
    ensures StackOk(ts, a, fs[|fs| - 1 := g], depths, t, base)
  {
    var gs := fs[|fs| - 1 := g];
    forall i: nat, k: nat | i <= k < |gs| ensures Nested(gs, i, k) {
      assert Nested(fs, i, k);
    }
    forall k | 0 <= k < |gs|
      ensures FrameAt(ts, a, gs, depths, t, base, k)
    {
      assert FrameAt(ts, a, fs, depths, t, base, k);
    }
  }

  lemma {:induction false} FreshFrame(ts: seq<Term>, a: Automaton, f: Frame, k: nat, d: nat, t: nat)
    requires t < |ts| && 0 < k <= d <= |ts[t]| && RunTo(a, ts[t], k - 1) != -1
    requires f.changeOrd == RunEnd(ts, t, d)
    requires f.state == a.step(RunTo(a, ts[t], k - 1), ts[t][k - 1]) && f.state >= 0
    requires f.transitionUpto == -1 && f.transitionMax == -1 && f.transitionCount == |a.ranges(f.state)|
    ensures FrameOk(ts, a, f, k, d, t)
  {
  }

  // ----- what a move may leave out

  lemma NoStep(a: Automaton, s: int, c: byte)
    requires Deterministic(a)
    requires forall r :: 0 <= r < |a.ranges(s)| ==> c < a.ranges(s)[r].min || a.ranges(s)[r].max < c
    ensures a.step(s, c) == -1
  {
    assert StepOk(a, s, c) && !InRange(a, s, c);
  }

  lemma {:induction false} DeadByte(a: Automaton, w: Term, k: nat)
    requires k < |w| && RunTo(a, w, k) != -1 && a.step(RunTo(a, w, k), w[k]) == -1
    ensures !Accepts(a, w)
  {
    DeadRejects(a, w, k + 1);
  }

  /** Terms of the top run whose byte at k lies below all remaining ranges, starting
      with the current one, are rejected. */
  lemma DeadLabel(ts: seq<Term>, a: Automaton, f: Frame, k: nat, d: nat, t: nat, m: nat)
    requires Deterministic(a) && Sorted(ts) && t <= m < |ts| && FrameOk(ts, a, f, k, d, t)
    requires k < |ts[t]| && m < f.changeOrd && f.transitionUpto >= 0
    requires k < |ts[m]| ==> ts[m][k] < f.transitionMin
    ensures Rejected(ts, a, m)
  {
    if t < m { FrameMoves(ts, a, f, k, d, t, m); }
    assert RangesOk(a, f.state);
    NoStep(a, f.state, ts[m][k]);
    DeadByte(a, ts[m], k);
  }

  /** Once the byte of t at k lies above all ranges, the rest of the run is rejected. */
  lemma ExhaustedLabel(ts: seq<Term>, a: Automaton, f: Frame, k: nat, d: nat, t: nat, m: nat)
    requires Deterministic(a) && Sorted(ts) && t <= m < |ts| && FrameOk(ts, a, f, k, d, t)
    requires k < |ts[t]| && m < f.changeOrd
    requires forall r :: 0 <= r < |a.ranges(f.state)| ==> a.ranges(f.state)[r].max < ts[t][k]
    ensures Rejected(ts, a, m)
  {
    if t < m {
      FrameMoves(ts, a, f, k, d, t, m);
      RunShares(ts, t, d, m);
      SharesShorter(ts[t], ts[m], d, k);
      assert Before(ts, t, m);
      SortedByte(ts[t], ts[m], k);
    }
    NoStep(a, f.state, ts[m][k]);
    DeadByte(a, ts[m], k);
  }

  /** A prefix the automaton cannot read rejects its whole run. */
  lemma {:induction false} DeadRun(ts: seq<Term>, a: Automaton, t: nat, d: nat, k: nat, m: nat)
    requires t <= m < |ts| && k < d <= |ts[t]| && m < RunEnd(ts, t, d)
    requires RunTo(a, ts[t], k) != -1 && a.step(RunTo(a, ts[t], k), ts[t][k]) == -1
    ensures Rejected(ts, a, m)
  {
    RunShares(ts, t, d, m);
    SharesShorter(ts[t], ts[m], d, k + 1);
    RunShared(a, ts[t], ts[m], k + 1);
    DeadRejects(a, ts[m], k + 1);
  }

  /** Following a skip pointer stays within the frame and only passes terms that
      share the byte the automaton cannot read. */
  lemma SkipRejects(ts: seq<Term>, a: Automaton, minSkip: int, f: Frame, k: nat, depth: nat, t: nat, j: nat)
    requires t < |ts| && FrameOk(ts, a, f, k, depth, t) && k < |ts[t]|
    requires k <= AdjLcp(ts, t) + j && depth <= AdjLcp(ts, t) + j && j < |SkipList(ts, t, minSkip)|
    requires a.step(f.state, ts[t][k]) == -1
    ensures t < SkipList(ts, t, minSkip)[j] <= f.changeOrd
    ensures NoneAccepted(ts, a, t, SkipList(ts, t, minSkip)[j])
  {
    SkipEntry(ts, t, minSkip, j);
    var d := AdjLcp(ts, t) + j + 1;
    RunEndAntitone(ts, t, depth, d);
    forall m: nat | t <= m < RunEnd(ts, t, d) ensures Rejected(ts, a, m) {
      DeadRun(ts, a, t, d, k, m);
    }
  }

  /** A frame for skip pointer j of t can be pushed once j are. */
  lemma {:induction false} StackPushesSkip(ts: seq<Term>, a: Automaton, minSkip: int, fs: seq<Frame>, depths: seq<nat>, t: nat, base: nat, j: nat, f: Frame)
    requires t < |ts| && |fs| == base + 1 + j && StackOk(ts, a, fs, depths, t, base)
    requires fs[|fs| - 1].changeOrd != t && base <= AdjLcp(ts, t) && |fs| - 1 < |ts[t]|
    requires j < |SkipList(ts, t, minSkip)| && f.changeOrd == SkipList(ts, t, minSkip)[j]
    requires f.state == a.step(fs[|fs| - 1].state, ts[t][|fs| - 1]) && f.state >= 0
    requires f.transitionUpto == -1 && f.transitionMax == -1 && f.transitionCount == |a.ranges(f.state)|
    ensures f.changeOrd > t && f.state == RunTo(a, ts[t], |fs|)
    ensures StackOk(ts, a, fs + [f], depths + [AdjLcp(ts, t) + j + 1], t, base)
  {
    var d := AdjLcp(ts, t) + j + 1;
    SkipFrame(ts, a, minSkip, fs, depths, t, base, j, f, d);
    StackPushes(ts, a, fs, depths, t, base, f, d);
  }

  lemma SkipFrame(ts: seq<Term>, a: Automaton, minSkip: int, fs: seq<Frame>, depths: seq<nat>, t: nat, base: nat, j: nat, f: Frame, d: nat)
    requires t < |ts| && |fs| == base + 1 + j && StackOk(ts, a, fs, depths, t, base)
    requires fs[|fs| - 1].changeOrd != t && base <= AdjLcp(ts, t) && |fs| - 1 < |ts[t]|
    requires j < |SkipList(ts, t, minSkip)| && f.changeOrd == SkipList(ts, t, minSkip)[j] && d == AdjLcp(ts, t) + j + 1
    requires f.state == a.step(fs[|fs| - 1].state, ts[t][|fs| - 1]) && f.state >= 0
    requires f.transitionUpto == -1 && f.transitionMax == -1 && f.transitionCount == |a.ranges(f.state)|
    ensures d <= |ts[t]| && fs[|fs| - 1].changeOrd > t && f.changeOrd > t && FrameOk(ts, a, f, |fs|, d, t)
  {
    FrameOf(ts, a, fs, depths, t, base, |fs| - 1);
    SkipEntry(ts, t, minSkip, j);
    FreshFrame(ts, a, f, |fs|, d, t);
  }
}
