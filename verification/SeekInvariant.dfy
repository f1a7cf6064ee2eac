/** What the search for an exclusive start term keeps, level by level. */
module SeekInvariant {
  import opened Terms
  import opened SkipTable
  import opened Automata
  import opened WalkInvariant

  /** The run of t at depth d is too short for a skip pointer. */
  predicate ShortRun(ts: seq<Term>, t: nat, d: nat, minSkip: int)
    requires t < |ts|
  {
    RunEnd(ts, t, d) - RunStart(ts, t, d) < minSkip
  }

  predicate Below(ts: seq<Term>, m: nat, w: Term)
    requires m < |ts|
  {
    Less(ts[m], w)
  }

  ghost predicate AllBelow(ts: seq<Term>, n: nat, w: Term) {
    n <= |ts| && forall m: nat :: m < n ==> Below(ts, m, w)
  }

  /** Before term t is compared at level i = |fs| - 1: every term before t is below the
      start term, the frames follow the start term byte by byte, and the pointers of t
      not used yet are those for longer prefixes, or its run has none. */
  ghost predicate SeekOk(ts: seq<Term>, a: Automaton, minSkip: int, start: Term, fs: seq<Frame>, depths: seq<nat>, t: nat, base: nat, j: nat)
    requires t < |ts|
  {
    && |fs| == |depths| == base + 1 + j && |fs| - 1 <= |start|
    && StackOk(ts, a, fs, depths, t, base)
    && j <= |SkipList(ts, t, minSkip)|
    && (forall k :: 0 <= k < |depths| ==> depths[k] == k)
    && AllBelow(ts, t, start)
    && fs[|fs| - 1].transitionUpto == -1
    && (if fs[|fs| - 1].changeOrd == t
        then t > 0 && j == 0 && SharesPrefix(ts[t - 1], start, |fs| - 1) && AdjLcp(ts, t) < |fs| - 1
        else SharesPrefix(ts[t], start, |fs| - 1)
             && (AdjLcp(ts, t) == base || (j == 0 && ShortRun(ts, t, |fs|, minSkip))))
  }

  /** g is frame f with its transition cursor moved up to byte i of the start term. */
  ghost predicate MovedUp(a: Automaton, start: Term, i: nat, f: Frame, g: Frame) {
    g.changeOrd == f.changeOrd && g.state == f.state && i < |start| && CursorOk(a, g, start, i)
  }

  /** One level of the search at term t: frame g is the top frame with its cursor moved up
      to the start term, which the automaton can read. */
  ghost predicate LevelOk(ts: seq<Term>, a: Automaton, minSkip: int, start: Term, fs: seq<Frame>, depths: seq<nat>, t: nat, base: nat, j: nat, g: Frame) {
    && t < |ts| && SeekOk(ts, a, minSkip, start, fs, depths, t, base, j) && |fs| - 1 < |start|
    && RunTo(a, start, |start|) != -1 && g.state == RunTo(a, start, |fs| - 1)
    && MovedUp(a, start, |fs| - 1, fs[|fs| - 1], g)
  }

  /** A term below the start term is passed; the search stays at its level. */
  lemma SeekMoves(ts: seq<Term>, a: Automaton, minSkip: int, start: Term, fs: seq<Frame>, depths: seq<nat>, t: nat, base: nat, j: nat, t': nat)
    requires Sorted(ts) && t < t' < |ts| && SeekOk(ts, a, minSkip, start, fs, depths, t, base, j)
    requires fs[|fs| - 1].changeOrd != t && t' <= fs[|fs| - 1].changeOrd
    requires AllBelow(ts, t', start)
    requires AdjLcp(ts, t') <= |fs| - 1 || ShortRun(ts, t', |fs|, minSkip)
    ensures SeekOk(ts, a, minSkip, start, fs, depths, t', |fs| - 1, 0)
  {
    var i := |fs| - 1;
    FrameOf(ts, a, fs, depths, t, base, i);
    StackMoves(ts, a, fs, depths, t, base, t');
    RunFollows(ts, start, t, i, t');
  }

  /** All of a run agrees with the start term as far as its first member does. */
  lemma RunFollows(ts: seq<Term>, start: Term, t: nat, i: nat, t': nat)
    requires t < t' < |ts| && SharesPrefix(ts[t], start, i) && t' <= RunEnd(ts, t, i)
    ensures SharesPrefix(ts[t' - 1], start, i)
    ensures t' < RunEnd(ts, t, i) ==> SharesPrefix(ts[t'], start, i) && AdjLcp(ts, t') >= i
  {
    RunShares(ts, t, i, t' - 1);
    RunShares(ts, t, i, t');
  }

  /** A used-up skip list means that the run one byte deeper is short. */
  lemma NoSkipShortRun(ts: seq<Term>, minSkip: int, t: nat, base: nat, j: nat)
    requires t < |ts| && base + j + 1 <= |ts[t]| && AdjLcp(ts, t) == base
    requires |SkipList(ts, t, minSkip)| <= j
    ensures ShortRun(ts, t, base + j + 1, minSkip) && RunStart(ts, t, base + j + 1) == t
  {
    SkipListMeaning(ts, t, minSkip);
  }

  /** In a short run no term has a pointer for a longer prefix. */
  lemma ShortRunNoSkip(ts: seq<Term>, minSkip: int, t: nat, d: nat)
    requires t < |ts| && d <= AdjLcp(ts, t) && ShortRun(ts, t, d, minSkip)
    ensures SkipList(ts, t, minSkip) == []
  {
    if SkipList(ts, t, minSkip) != [] {
      SkipListMeaning(ts, t, minSkip);
      RunEndAntitone(ts, t, d, AdjLcp(ts, t) + 1);
    }
  }

  lemma ShortRunNext(ts: seq<Term>, minSkip: int, t: nat, d: nat)
    requires t + 1 < |ts| && ShortRun(ts, t, d, minSkip) && AdjLcp(ts, t + 1) >= d
    ensures ShortRun(ts, t + 1, d, minSkip)
  {
    assert RunEnd(ts, t, d) == |ts| || AdjLcp(ts, RunEnd(ts, t, d)) < d;
    RunEndSame(ts, t, d, t + 1);
  }

  lemma {:induction false} ShortRunMembers(ts: seq<Term>, minSkip: int, t: nat, d: nat, m: nat)
    requires t < m < |ts| && m < RunEnd(ts, t, d) && ShortRun(ts, t, d, minSkip)
    ensures ShortRun(ts, m, d, minSkip) && SkipList(ts, m, minSkip) == []
    decreases m
  {
    if t + 1 < m { ShortRunMembers(ts, minSkip, t, d, m - 1); }
    ShortRunNext(ts, minSkip, m - 1, d);
    ShortRunNoSkip(ts, minSkip, m, d);
  }

  /** At level i either the pointers of t continue with depth i + 1, or it has none. */
  lemma SkipIsNextDepth(ts: seq<Term>, a: Automaton, minSkip: int, start: Term, fs: seq<Frame>, depths: seq<nat>, t: nat, base: nat, j: nat)
    requires t < |ts| && SeekOk(ts, a, minSkip, start, fs, depths, t, base, j)
    requires fs[|fs| - 1].changeOrd != t && |fs| - 1 < |ts[t]|
    ensures j < |SkipList(ts, t, minSkip)| ==>
              AdjLcp(ts, t) == base && SkipList(ts, t, minSkip)[j] == RunEnd(ts, t, |fs|)
    ensures j >= |SkipList(ts, t, minSkip)| ==> ShortRun(ts, t, |fs|, minSkip)
  {
    FrameOf(ts, a, fs, depths, t, base, |fs| - 1);
    assert Nested(fs, base, |fs| - 1);
    FrameOf(ts, a, fs, depths, t, base, base);
    NextDepth(ts, minSkip, t, base, j, |fs|);
  }

  lemma NextDepth(ts: seq<Term>, minSkip: int, t: nat, base: nat, j: nat, n: nat)
    requires t < |ts| && n == base + 1 + j <= |ts[t]| && j <= |SkipList(ts, t, minSkip)|
    requires AdjLcp(ts, t) == base || (j == 0 && n <= AdjLcp(ts, t) && ShortRun(ts, t, n, minSkip))
    ensures j < |SkipList(ts, t, minSkip)| ==> AdjLcp(ts, t) == base && SkipList(ts, t, minSkip)[j] == RunEnd(ts, t, n)
    ensures j >= |SkipList(ts, t, minSkip)| ==> ShortRun(ts, t, n, minSkip)
  {
    if AdjLcp(ts, t) != base {
      ShortRunNoSkip(ts, minSkip, t, n);
    } else if j < |SkipList(ts, t, minSkip)| {
      SkipEntry(ts, t, minSkip, j);
    } else {
      NoSkipShortRun(ts, minSkip, t, base, j);
    }
  }

  // ----- the moves of the search at one level

  lemma {:induction false} LessAt(v: Term, w: Term, i: nat)
    requires SharesPrefix(v, w, i) && i < |w| && (i < |v| ==> v[i] < w[i])
    ensures Less(v, w)
  {
    LcpUnique(v, w, i);
  }

  /** A term that ends at this level is a proper prefix of the start term. */
  lemma PassPrefix(ts: seq<Term>, a: Automaton, minSkip: int, start: Term, fs: seq<Frame>, depths: seq<nat>, t: nat, base: nat, j: nat, t': nat)
    requires Sorted(ts) && t < |ts| && SeekOk(ts, a, minSkip, start, fs, depths, t, base, j)
    requires fs[|fs| - 1].changeOrd != t && |ts[t]| == |fs| - 1 < |start| && t' == t + 1
    ensures AllBelow(ts, t', start)
    ensures t' < |ts| ==> SeekOk(ts, a, minSkip, start, fs, depths, t', |fs| - 1, 0)
  {
    FrameOf(ts, a, fs, depths, t, base, |fs| - 1);
    LessAt(ts[t], start, |fs| - 1);
    if t' < |ts| {
      SeekMoves(ts, a, minSkip, start, fs, depths, t, base, j, t');
    }
  }

  lemma RunBelow(ts: seq<Term>, start: Term, t: nat, i: nat, m: nat)
    requires t <= m < |ts| && m < RunEnd(ts, t, i + 1) && i < |ts[t]| && i < |start|
    requires SharesPrefix(ts[t], start, i) && ts[t][i] < start[i]
    ensures Below(ts, m, start)
  {
    RunShares(ts, t, i + 1, m);
    SharesByte(ts[t], ts[m], i + 1, i);
    SharesShorter(ts[t], ts[m], i + 1, i);
    SharesTrans(ts[m], ts[t], start, i);
    LessAt(ts[m], start, i);
  }

  /** A term with a smaller byte is passed, with its whole run if there is a pointer. */
  lemma PassSmaller(ts: seq<Term>, a: Automaton, minSkip: int, start: Term, fs: seq<Frame>, depths: seq<nat>, t: nat, base: nat, j: nat, t': nat)
    requires Sorted(ts) && t < |ts| && SeekOk(ts, a, minSkip, start, fs, depths, t, base, j)
    requires fs[|fs| - 1].changeOrd != t && |fs| - 1 < |ts[t]| && |fs| - 1 < |start|
    requires ts[t][|fs| - 1] < start[|fs| - 1]
    requires t' == if j < |SkipList(ts, t, minSkip)| then SkipList(ts, t, minSkip)[j] else t + 1
    ensures t < t' <= |ts| && AllBelow(ts, t', start)
    ensures t' < |ts| ==> SeekOk(ts, a, minSkip, start, fs, depths, t', |fs| - 1, 0)
  {
    FrameOf(ts, a, fs, depths, t, base, |fs| - 1);
    SkipIsNextDepth(ts, a, minSkip, start, fs, depths, t, base, j);
    SmallerBelow(ts, start, t, |fs| - 1, t');
    if t' < |ts| {
      AfterShortRun(ts, minSkip, t, |fs|, t');
      SeekMoves(ts, a, minSkip, start, fs, depths, t, base, j, t');
    }
  }

  /** After the run of a term, or within it if it is short, there are no pointers for d. */
  lemma AfterShortRun(ts: seq<Term>, minSkip: int, t: nat, d: nat, t': nat)
    requires t < t' < |ts| && (t' == RunEnd(ts, t, d) || (t' == t + 1 && ShortRun(ts, t, d, minSkip)))
    ensures AdjLcp(ts, t') < d || ShortRun(ts, t', d, minSkip)
  {
    if t' != RunEnd(ts, t, d) && AdjLcp(ts, t') >= d { ShortRunNext(ts, minSkip, t, d); }
  }

  /** The run of a term with a smaller byte lies below the start term. */
  lemma SmallerBelow(ts: seq<Term>, start: Term, t: nat, i: nat, t': nat)
    requires Sorted(ts) && t < |ts| && AllBelow(ts, t, start) && SharesPrefix(ts[t], start, i)
    requires i < |ts[t]| && i < |start| && ts[t][i] < start[i]
    requires t' == t + 1 || t' == RunEnd(ts, t, i + 1)
    ensures AllBelow(ts, t', start) && t < t' <= RunEnd(ts, t, i)
  {
    RunEndAntitone(ts, t, i, i + 1);
    forall m: nat | t <= m < t' ensures Below(ts, m, start) { RunBelow(ts, start, t, i, m); }
  }

  /** With a matching byte and a pointer left, the search goes one level down. */
  lemma SeekPushes(ts: seq<Term>, a: Automaton, minSkip: int, start: Term, fs: seq<Frame>, depths: seq<nat>, t: nat, base: nat, j: nat, g: Frame, f: Frame)
    requires Sorted(ts) && t < |ts| && SeekOk(ts, a, minSkip, start, fs, depths, t, base, j)
    requires fs[|fs| - 1].changeOrd != t && |fs| - 1 < |ts[t]| && |fs| - 1 < |start|
    requires ts[t][|fs| - 1] == start[|fs| - 1]
    requires MovedUp(a, start, |fs| - 1, fs[|fs| - 1], g)
    requires j < |SkipList(ts, t, minSkip)| && f.changeOrd == SkipList(ts, t, minSkip)[j]
    requires f.state == a.step(g.state, start[|fs| - 1]) && f.state >= 0
    requires f.transitionUpto == -1 && f.transitionMax == -1 && f.transitionCount == |a.ranges(f.state)|
    ensures f.changeOrd > t
    ensures SeekOk(ts, a, minSkip, start, fs[|fs| - 1 := g] + [f], depths + [|fs|], t, base, j + 1)
  {
    var i := |fs| - 1;
    FrameOf(ts, a, fs, depths, t, base, i);
    SkipIsNextDepth(ts, a, minSkip, start, fs, depths, t, base, j);
    StackCursor(ts, a, fs, depths, t, base, g);
    StackPushesSkip(ts, a, minSkip, fs[i := g], depths, t, base, j, f);
    SharesExtend(ts[t], start, i);
  }

  /** With a matching byte and no pointer left, the terms to scan form a short run
      within the current frame. */
  lemma SeekScans(ts: seq<Term>, a: Automaton, minSkip: int, start: Term, fs: seq<Frame>, depths: seq<nat>, t: nat, base: nat, j: nat)
    requires t < |ts| && SeekOk(ts, a, minSkip, start, fs, depths, t, base, j)
    requires fs[|fs| - 1].changeOrd != t && |fs| - 1 < |ts[t]| && |fs| - 1 < |start|
    requires ts[t][|fs| - 1] == start[|fs| - 1] && j >= |SkipList(ts, t, minSkip)|
    ensures SharesPrefix(ts[t], start, |fs|) && ShortRun(ts, t, |fs|, minSkip)
    ensures RunEnd(ts, t, |fs|) <= fs[|fs| - 1].changeOrd
    ensures AllBelow(ts, t, start)
  {
    SkipIsNextDepth(ts, a, minSkip, start, fs, depths, t, base, j);
    SharesExtend(ts[t], start, |fs| - 1);
    FrameOf(ts, a, fs, depths, t, base, |fs| - 1);
    RunEndAntitone(ts, t, |fs| - 1, |fs|);
  }

  /** The search starts at the first term with the root frame only. */
  lemma {:induction false} SeekBegins(ts: seq<Term>, a: Automaton, minSkip: int, start: Term, f: Frame)
    requires |ts| > 0 && StackOk(ts, a, [f], [0], 0, 0) && f.transitionUpto == -1
    ensures SeekOk(ts, a, minSkip, start, [f], [0], 0, 0, 0) && f.state == RunTo(a, start, 0)
  {
    FrameOf(ts, a, [f], [0], 0, 0, 0);
  }

  /** On reaching a level, its frame has consumed no transition yet. */
  lemma FreshLevel(ts: seq<Term>, a: Automaton, minSkip: int, start: Term, fs: seq<Frame>, depths: seq<nat>, t: nat, base: nat, j: nat)
    requires t < |ts| && SeekOk(ts, a, minSkip, start, fs, depths, t, base, j)
    requires fs[|fs| - 1].changeOrd != t
    ensures CursorOk(a, fs[|fs| - 1], start, |fs| - 1)
  {
    FrameOf(ts, a, fs, depths, t, base, |fs| - 1);
  }

  /** With all bytes of the start term found, t is the start term or above it. */
  lemma SeekFinds(ts: seq<Term>, a: Automaton, minSkip: int, start: Term, fs: seq<Frame>, depths: seq<nat>, t: nat, base: nat, j: nat, t': nat)
    requires Sorted(ts) && t < |ts| && SeekOk(ts, a, minSkip, start, fs, depths, t, base, j)
    requires fs[|fs| - 1].changeOrd != t && |fs| - 1 == |start| && t' == t + 1
    ensures fs[|fs| - 1].changeOrd > t
    ensures ts[t] == start ==> Splits(ts, start, t')
    ensures ts[t] != start ==> Splits(ts, start, t) && StackOk(ts, a, fs[..base + 1], depths[..base + 1], t, base)
  {
    FrameOf(ts, a, fs, depths, t, base, |fs| - 1);
    StackPrefix(ts, a, fs, depths, t, base, base + 1);
    if ts[t] == start { SplitsAfter(ts, start, t, t'); } else { SplitsBefore(ts, start, t); }
  }

  lemma SplitsAfter(ts: seq<Term>, start: Term, t: nat, t': nat)
    requires Sorted(ts) && t < |ts| && t' == t + 1 && ts[t] == start && AllBelow(ts, t, start)
    ensures Splits(ts, start, t')
  {
    if t' < |ts| { assert Before(ts, t, t'); }
    SplitsHere(ts, start, t');
  }

  lemma SplitsBefore(ts: seq<Term>, start: Term, t: nat)
    requires Sorted(ts) && t < |ts| && ts[t] != start && SharesPrefix(ts[t], start, |start|) && AllBelow(ts, t, start)
    ensures Splits(ts, start, t)
  {
    assert ts[t][..|start|] == start[..|start|] == start;
    LessAt(start, ts[t], |start|);
    SplitsHere(ts, start, t);
  }

  // ----- where the search ends

  /** When the run of the current level has ended, its successor is above the start. */
  lemma SeekRunEnded(ts: seq<Term>, a: Automaton, minSkip: int, start: Term, fs: seq<Frame>, depths: seq<nat>, t: nat, base: nat, j: nat)
    requires Sorted(ts) && t < |ts| && SeekOk(ts, a, minSkip, start, fs, depths, t, base, j)
    requires fs[|fs| - 1].changeOrd == t
    ensures t > 0 && j == 0 && StackOk(ts, a, fs, depths, t, |fs| - 1) && Splits(ts, start, t)
  {
    PastRun(ts, start, t, |fs| - 1);
    SplitsHere(ts, start, t);
  }

  /** Ordinal t separates the terms up to the start term from those above it. */
  ghost predicate Splits(ts: seq<Term>, start: Term, t: nat) {
    && t <= |ts|
    && (forall m: nat :: m < t ==> Below(ts, m, start) || ts[m] == start)
    && (forall m: nat :: t <= m < |ts| ==> Above(ts, m, start))
  }

  predicate Above(ts: seq<Term>, m: nat, w: Term)
    requires m < |ts|
  {
    Less(w, ts[m])
  }

  lemma SplitsHere(ts: seq<Term>, start: Term, t: nat)
    requires Sorted(ts) && t <= |ts|
    requires forall m: nat :: m < t ==> Below(ts, m, start) || ts[m] == start
    requires t < |ts| ==> Less(start, ts[t])
    ensures Splits(ts, start, t)
  {
    forall m: nat | t <= m < |ts| ensures Above(ts, m, start) {
      if t < m {
        assert Before(ts, t, m);
        LessTrans(start, ts[t], ts[m]);
      }
    }
  }

  /** Past the end of the run that agrees with the start term, all terms are above it. */
  lemma PastRun(ts: seq<Term>, start: Term, t: nat, i: nat)
    requires Sorted(ts) && 0 < t < |ts| && Below(ts, t - 1, start)
    requires SharesPrefix(ts[t - 1], start, i) && AdjLcp(ts, t) < i
    ensures Less(start, ts[t])
  {
    LessTotal(start, ts[t]);
    assert Before(ts, t - 1, t);
    SharesIffLcp(ts[t - 1], ts[t], i);
    if !Less(start, ts[t]) { SharesBetween(ts[t - 1], ts[t], start, i); }
  }

  /** Leaving the search for term t': the frames pushed for t are dropped, and the
      transition cursor moved up to the start term is right for t'. */
  lemma SeekUnwinds(ts: seq<Term>, a: Automaton, minSkip: int, start: Term, fs: seq<Frame>, depths: seq<nat>, t: nat, base: nat, j: nat, g: Frame, t': nat)
    requires Sorted(ts) && t <= t' < |ts| && SeekOk(ts, a, minSkip, start, fs, depths, t, base, j)
    requires fs[|fs| - 1].changeOrd != t && |fs| - 1 < |ts[t]| && |fs| - 1 < |start|
    requires start[|fs| - 1] <= ts[t][|fs| - 1] && t' <= fs[|fs| - 1].changeOrd
    requires MovedUp(a, start, |fs| - 1, fs[|fs| - 1], g)
    ensures StackOk(ts, a, fs[|fs| - 1 := g][..base + 1], depths[..base + 1], t', base)
  {
    var i := |fs| - 1;
    var gs := fs[i := g];
    FrameOf(ts, a, fs, depths, t, base, i);
    StackCursor(ts, a, fs, depths, t, base, g);
    StackPrefix(ts, a, gs, depths, t, base, base + 1);
    if t < t' {
      assert Nested(gs, base, i);
      StackMoves(ts, a, gs[..base + 1], depths[..base + 1], t, base, t');
    }
  }

  /** Terms from t up to the start term agree with t wherever the start term does. */
  lemma ScanStaysInRun(ts: seq<Term>, start: Term, t: nat, d: nat, t': nat)
    requires Sorted(ts) && t < |ts| && t <= t' <= |ts| && SharesPrefix(ts[t], start, d)
    requires forall m: nat :: t <= m < t' ==> Below(ts, m, start) || ts[m] == start
    ensures t' <= RunEnd(ts, t, d)
  {
    var e := RunEnd(ts, t, d);
    if e < t' {
      assert Below(ts, e, start) || ts[e] == start;
      if t < e - 1 { assert Before(ts, t, e - 1); }
      assert Before(ts, e - 1, e) && Before(ts, t, e);
      SharesBetween(ts[t], ts[e], start, d);
      SharesBetween(ts[t], ts[e - 1], ts[e], d);
      SharesTrans(ts[e - 1], ts[t], ts[e], d);
      SharesIffLcp(ts[e - 1], ts[e], d);
    }
  }
}
