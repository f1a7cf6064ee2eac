/** Walking the sorted terms of a field against an automaton, with skip pointers. */
module Intersect {
  import opened Options
  import opened Terms
  import opened SkipTable
  import opened Automata
  import opened DirectField
  import opened WalkInvariant
  import opened SeekInvariant

  /** Moves a frame's transition cursor to the first range that does not lie below
      byte k of the term. */
  method AdvanceCursor(a: Automaton, f: Frame, ghost term: Term, ghost k: nat, c: byte)
    returns (g: Frame, exhausted: bool)
    requires k < |term| && c == term[k] && CursorOk(a, f, term, k)
    ensures g.changeOrd == f.changeOrd && g.state == f.state
    ensures exhausted ==> forall r :: 0 <= r < |a.ranges(f.state)| ==> a.ranges(f.state)[r].max < c
    ensures !exhausted ==> CursorOk(a, g, term, k) && g.transitionUpto >= 0 && c <= g.transitionMax
  {
    g := f;
    var rs := a.ranges(f.state);
    while c > g.transitionMax
      invariant g.changeOrd == f.changeOrd && g.state == f.state && CursorOk(a, g, term, k)
      decreases g.transitionCount - g.transitionUpto
    {
      g := g.(transitionUpto := g.transitionUpto + 1);
      if g.transitionUpto == g.transitionCount {
        return g, true;
      }
      g := g.(transitionMin := rs[g.transitionUpto].min, transitionMax := rs[g.transitionUpto].max);
    }
    exhausted := false;
  }

  /** Bytes at position k do not decrease over a run of terms sharing k bytes. */
  ghost predicate Ascending(ts: seq<Term>, k: nat, lo: nat, hi: nat) {
    && lo <= hi <= |ts|
    && (forall m :: lo <= m < hi ==> k < |ts[m]|)
    && (forall m, n :: lo <= m <= n < hi ==> ts[m][k] <= ts[n][k])
  }

  lemma FrameAscending(ts: seq<Term>, a: Automaton, f: Frame, k: nat, d: nat, t: nat)
    requires Sorted(ts) && t < |ts| && FrameOk(ts, a, f, k, d, t) && k < |ts[t]|
    ensures Ascending(ts, k, t, f.changeOrd)
  {
    forall m: nat | t <= m < f.changeOrd ensures k < |ts[m]| && SharesPrefix(ts[t], ts[m], k) {
      if t < m { FrameMoves(ts, a, f, k, d, t, m); }
      RunShares(ts, t, d, m);
      SharesShorter(ts[t], ts[m], d, k);
    }
    forall m, n | t <= m <= n < f.changeOrd ensures ts[m][k] <= ts[n][k] {
      if m < n {
        assert Before(ts, m, n) && SharesPrefix(ts[m], ts[n], k);
        SortedByte(ts[m], ts[n], k);
      }
    }
  }

  /** Binary search, then a walk back, for the first later term of the run whose byte
      at k is not below the target. */
  method FindLabel(data: FieldData, ghost ts: seq<Term>, k: nat, t: nat, changeOrd: nat, target: byte)
    returns (ord: nat)
    requires Represents(data, ts) && t < changeOrd && Ascending(ts, k, t, changeOrd)
    requires ts[t][k] < target
    ensures t < ord <= changeOrd
    ensures forall m :: t <= m < ord ==> ts[m][k] < target
    ensures ord < changeOrd ==> ts[ord][k] >= target
  {
    var low, high := t + 1, changeOrd - 1;
    while low <= high
      invariant t + 1 <= low <= high + 1 <= changeOrd
      invariant forall m :: t <= m < low ==> ts[m][k] < target
      invariant forall m :: high < m < changeOrd ==> ts[m][k] > target
      decreases high - low
    {
      var mid := (low + high) / 2;
      var cmp := TermByte(data, ts, mid, k) - target;
      if cmp < 0 {
        low := mid + 1;
      } else if cmp > 0 {
        high := mid - 1;
      } else {
        ord := mid;
        while ord > t && TermByte(data, ts, ord - 1, k) == target
          invariant t < ord <= mid && ts[ord][k] == target
        {
          ord := ord - 1;
        }
        return;
      }
    }
    ord := low;
  }

  /** Compares the end of a stored term with a suffix. */
  method HasSuffix(data: FieldData, ghost ts: seq<Term>, t: nat, suffix: Term) returns (ok: bool)
    requires Represents(data, ts) && t < |ts|
    ensures ok <==> exists u: Term :: ts[t] == u + suffix
  {
    EndsWithIff(ts[t], suffix);
    var termLength := TermLength(data, ts, t);
    if termLength < |suffix| {
      return false;
    }
    assert CellIs(data.termBytes, data.termOffsets, t, ts[t]);
    var offset := data.termOffsets[t] + termLength - |suffix|;
    assert data.termBytes[offset..offset + |suffix|] == ts[t][termLength - |suffix|..];
    ok := data.termBytes[offset..offset + |suffix|] == suffix;
  }

  /** Runs the rest of a term through the automaton after its first k + 1 bytes. */
  method TailAccepts(data: FieldData, ghost ts: seq<Term>, a: Automaton, suffix: Option<Term>, t: nat, k: nat, state: int)
    returns (ok: bool)
    requires Represents(data, ts) && t < |ts| && k < |ts[t]|
    requires CommonSuffix(a, suffix)
    requires state == RunTo(a, ts[t], k + 1) && state != -1
    ensures ok <==> Accepts(a, ts[t])
  {
    var termLength := TermLength(data, ts, t);
    if suffix.Some? {
      assert SuffixOk(a, suffix.value, ts[t]);
      var found := HasSuffix(data, ts, t, suffix.value);
      if !found {
        return false;
      }
    }
    var upto, nextState := k + 1, state;
    while upto < termLength
      invariant k + 1 <= upto <= termLength
      invariant nextState == RunTo(a, ts[t], upto) && nextState != -1
    {
      nextState := a.step(nextState, TermByte(data, ts, t, upto));
      if nextState == -1 {
        DeadRejects(a, ts[t], upto + 1);
        return false;
      }
      upto := upto + 1;
    }
    ok := a.accept(nextState);
  }

  datatype Outcome = Continue | Found | Done
  datatype SeekOutcome = Passed | Down | Over

  class IntersectEnum {
    const data: FieldData
    const automaton: Automaton
    const commonSuffix: Option<Term>
    ghost const ts: seq<Term>
    var termOrd: int
    var states: seq<Frame>
    ghost var depths: seq<nat>

    ghost predicate Sound() { WalkSound(data, ts, automaton, commonSuffix) }

    ghost predicate Walking(t: nat, base: nat, skipUpto: nat)
      reads this`states, this`depths
    {
      WalkOk(ts, automaton, data.minSkipCount, states, depths, t, base, skipUpto)
    }

    /** The walk stands before a term it has not examined yet. */
    ghost predicate Arrived(t: nat)
      reads this`states, this`depths
    {
      |states| > 0 && Walking(t, |states| - 1, 0)
    }

    /** Between calls: the next term to be examined is the one after termOrd. */
    ghost predicate Valid()
      reads this
    {
      -1 <= termOrd < |ts| && Arrived(termOrd + 1)
    }

    ghost function Top(): Frame
      reads this`states
      requires |states| > 0
    {
      states[|states| - 1]
    }

    /** The walk may go on to any later term within the top frame. */
    lemma MoveTo(t: nat, base: nat, t': nat)
      requires Sorted(ts)
      requires t < |ts| && |states| == |depths| > 0 && t < t' <= |ts| && t' <= Top().changeOrd
      requires StackOk(ts, automaton, states, depths, t, base)
      ensures Arrived(t')
    {
      if t' < |ts| {
        StackMoves(ts, automaton, states, depths, t, base, t');
      }
    }

    /** Term t can be read at the depth of the top frame, which has not ended. */
    ghost predicate Reading(t: nat, base: nat, skipUpto: nat)
      reads this`states, this`depths
    {
      && Walking(t, base, skipUpto) && t < |ts|
      && t < Top().changeOrd <= |ts| && |states| - 1 < |ts[t]| && base <= AdjLcp(ts, t)
    }

    lemma StartReading(t: nat, base: nat, skipUpto: nat)
      requires Sorted(ts)
      requires Walking(t, base, skipUpto) && t < |ts| && |ts[t]| > 0 && Top().changeOrd != t
      ensures Reading(t, base, skipUpto)
    {
      FrameOf(ts, automaton, states, depths, t, base, |states| - 1);
      BaseBelowTerm(ts, automaton, states, depths, t, base);
    }

    method Pop(ghost t: nat)
      requires Arrived(t) && t < |ts| && Top().changeOrd == t
      modifies this`states, this`depths
      ensures Arrived(t) && |states| == |old(states)| - 1
    {
      StackPrefix(ts, automaton, states, depths, t, |states| - 1, |states| - 1);
      depths := depths[..|states| - 1];
      states := states[..|states| - 1];
    }

    /** Moves the transition cursor of the top frame up to byte c of term t. When no
        range is left, every term within the frame is rejected. */
    method AdvanceTop(ghost t: nat, ghost base: nat, ghost skipUpto: nat, c: byte) returns (exhausted: bool)
      requires Sound()
      requires Reading(t, base, skipUpto) && c == ts[t][|states| - 1]
      modifies this`states
      ensures |states| == |old(states)| && Reading(t, base, skipUpto)
      ensures exhausted ==> NoneAccepted(ts, automaton, t, Top().changeOrd)
      ensures !exhausted ==> Top().transitionUpto >= 0 && c <= Top().transitionMax
    {
      ghost var k, d := |states| - 1, depths[|states| - 1];
      FrameOf(ts, automaton, states, depths, t, base, k);
      var f := states[|states| - 1];
      var g;
      g, exhausted := AdvanceCursor(automaton, f, ts[t], k, c);
      if exhausted {
        forall m: nat | t <= m < f.changeOrd ensures Rejected(ts, automaton, m) {
          ExhaustedLabel(ts, automaton, f, k, d, t, m);
        }
      } else {
        StackCursor(ts, automaton, states, depths, t, base, g);
        states := states[|states| - 1 := g];
      }
    }

    /** Leaves a frame whose transitions are used up for the term after its run. */
    method ForcePop(ghost t: nat, ghost base: nat, ghost skipUpto: nat)
      requires Sorted(ts)
      requires Reading(t, base, skipUpto) && |states| > 1
      modifies this
      ensures t < termOrd && Arrived(termOrd)
      ensures termOrd == old(Top()).changeOrd
    {
      var next := states[|states| - 1].changeOrd;
      MoveTo(t, base, next);
      if next < |ts| {
        StackPrefix(ts, automaton, states, depths, next, |states| - 1, |states| - 1);
      }
      termOrd := next;
      depths := depths[..|states| - 1];
      states := states[..|states| - 1];
    }

    /** Finds the next term whose byte is not below the current range; the terms
        before it are rejected. */
    method JumpToLabel(t: nat, ghost base: nat, ghost skipUpto: nat) returns (ord: nat)
      requires Sound()
      requires Reading(t, base, skipUpto)
      requires Top().transitionUpto >= 0 && ts[t][|states| - 1] < Top().transitionMin
      ensures t < ord <= |ts| && Arrived(ord)
      ensures NoneAccepted(ts, automaton, t, ord)
    {
      var k := |states| - 1;
      var f := states[k];
      FrameOf(ts, automaton, states, depths, t, base, k);
      FrameAscending(ts, automaton, f, k, depths[k], t);
      ord := FindLabel(data, ts, k, t, f.changeOrd, f.transitionMin);
      forall m: nat | t <= m < ord ensures Rejected(ts, automaton, m) {
        DeadLabel(ts, automaton, f, k, depths[k], t, m);
      }
      MoveTo(t, base, ord);
    }

    /** Where the automaton cannot step, the terms up to the next pointer, or this one if
        there is none, are rejected. */
    lemma DeadTerms(t: nat, base: nat, skipUpto: nat, ord: nat)
      requires Sorted(ts) && Reading(t, base, skipUpto) && automaton.step(Top().state, ts[t][|states| - 1]) == -1
      requires var skips := SkipList(ts, t, data.minSkipCount); ord == if skipUpto < |skips| then skips[skipUpto] else t + 1
      ensures t < ord <= Top().changeOrd && NoneAccepted(ts, automaton, t, ord)
    {
      var k := |states| - 1;
      FrameOf(ts, automaton, states, depths, t, base, k);
      if skipUpto < |SkipList(ts, t, data.minSkipCount)| {
        SkipRejects(ts, automaton, data.minSkipCount, states[k], k, depths[k], t, skipUpto);
      } else {
        DeadByte(automaton, ts[t], k);
      }
    }

    /** Where a term whose next byte cannot be read sends the walk. */
    method SkipDead(t: nat, ghost base: nat, skipUpto: nat) returns (ord: nat)
      requires Sound()
      requires Reading(t, base, skipUpto)
      requires automaton.step(Top().state, ts[t][|states| - 1]) == -1
      ensures t < ord <= |ts| && Arrived(ord)
      ensures NoneAccepted(ts, automaton, t, ord)
    {
      ord := if skipUpto < NumSkips(data, ts, t) then SkipAt(data, ts, t, skipUpto) else t + 1;
      DeadTerms(t, base, skipUpto, ord);
      MoveTo(t, base, ord);
    }

    /** Pushes a frame for the next skip pointer of the term. */
    method Push(t: nat, ghost base: nat, skipUpto: nat, nextState: int)
      requires Sound()
      requires Reading(t, base, skipUpto) && skipUpto < |SkipList(ts, t, data.minSkipCount)|
      requires nextState == automaton.step(Top().state, ts[t][|states| - 1]) && nextState >= 0
      modifies this`states, this`depths
      ensures |states| == |depths| == base + 2 + skipUpto
      ensures Top().changeOrd > t && nextState == RunTo(automaton, ts[t], |states| - 1)
      ensures StackOk(ts, automaton, states, depths, t, base)
    {
      // A slot left by a popped frame is reused with whatever lower bound it had.
      var stale: int := *;
      var f := Frame(SkipAt(data, ts, t, skipUpto), nextState, -1, |automaton.ranges(nextState)|, stale, -1);
      StackPushesSkip(ts, automaton, data.minSkipCount, states, depths, t, base, skipUpto, f);
      states := states + [f];
      depths := depths + [AdjLcp(ts, t) + skipUpto + 1];
    }

    /** What one round of the walk at term t may come to: t is accepted, or no term is
        left, or the terms passed over are rejected and the walk has moved forward,
        used up a skip pointer or popped a frame. */
    ghost predicate Stepped(t: nat, skipUpto: nat, height: nat, o: Outcome, base': nat, skipUpto': nat)
      reads this
      requires t < |ts|
    {
      && t <= termOrd <= |ts|
      && NoneAccepted(ts, automaton, t, termOrd)
      && match o
         case Found => termOrd == t && Accepts(automaton, ts[t]) && Arrived(t + 1)
         case Done => termOrd == |ts|
         case Continue =>
           && Walking(termOrd, base', skipUpto')
           && (t < termOrd || skipUpto < skipUpto' || (skipUpto == skipUpto' && |states| < height))
    }

    lemma Moved(t: nat, skipUpto: nat, height: nat)
      requires t < |ts| && t < termOrd <= |ts| && Arrived(termOrd)
      requires NoneAccepted(ts, automaton, t, termOrd)
      ensures Stepped(t, skipUpto, height, Continue, |states| - 1, 0)
    {
    }

    method StepOver(t: nat, ghost skipUpto: nat, ghost height: nat) returns (o: Outcome, ghost base': nat, skipUpto': nat)
      requires t < |ts| && termOrd == t && Arrived(t + 1) && !Accepts(automaton, ts[t])
      modifies this`termOrd
      ensures Stepped(t, skipUpto, height, o, base', skipUpto')
    {
      termOrd := t + 1;
      o, base', skipUpto' := Continue, |states| - 1, 0;
    }

    /** Runs the part of the term that no skip pointer covers. */
    method ReadTail(t: nat, ghost base: nat, skipUpto: nat, nextState: int) returns (o: Outcome, ghost base': nat, skipUpto': nat)
      requires Sound()
      requires termOrd == t && Reading(t, base, skipUpto)
      requires nextState == automaton.step(Top().state, ts[t][|states| - 1]) && nextState >= 0
      modifies this
      ensures Stepped(t, skipUpto, |old(states)|, o, base', skipUpto')
    {
      FrameOf(ts, automaton, states, depths, t, base, |states| - 1);
      var ok := TailAccepts(data, ts, automaton, commonSuffix, t, |states| - 1, nextState);
      MoveTo(t, base, t + 1);
      if ok {
        o, base', skipUpto' := Found, 0, 0;
      } else {
        o, base', skipUpto' := StepOver(t, skipUpto, |old(states)|);
      }
    }

    /** A term ending at the frame just pushed is left behind whatever it is worth. */
    lemma Pushed(t: nat, base: nat, skipUpto: nat)
      requires Sorted(ts)
      requires t < |ts| && |states| == |depths| == base + 2 + skipUpto && Top().changeOrd > t
      requires StackOk(ts, automaton, states, depths, t, base) && skipUpto < |SkipList(ts, t, data.minSkipCount)|
      ensures |states| - 1 <= |ts[t]| && Arrived(t + 1)
      ensures |states| - 1 < |ts[t]| ==> Walking(t, base, skipUpto + 1)
    {
      FrameOf(ts, automaton, states, depths, t, base, |states| - 1);
      MoveTo(t, base, t + 1);
    }

    /** Goes one byte deeper into the term by its next skip pointer. */
    method Descend(t: nat, ghost base: nat, skipUpto: nat, nextState: int) returns (o: Outcome, ghost base': nat, skipUpto': nat)
      requires Sound()
      requires termOrd == t && Reading(t, base, skipUpto) && skipUpto < |SkipList(ts, t, data.minSkipCount)|
      requires nextState == automaton.step(Top().state, ts[t][|states| - 1]) && nextState >= 0
      modifies this
      ensures Stepped(t, skipUpto, |old(states)|, o, base', skipUpto')
    {
      Push(t, base, skipUpto, nextState);
      Pushed(t, base, skipUpto);
      if |states| - 1 < TermLength(data, ts, t) {
        return Continue, base, skipUpto + 1;
      }
      EndState(automaton, ts[t], nextState);
      if automaton.accept(nextState) {
        return Found, 0, 0;
      }
      o, base', skipUpto' := StepOver(t, skipUpto, |old(states)|);
    }

    /** One round of the loop of next: term termOrd against the top of the stack. */
    method Examine(ghost base: nat, skipUpto: nat) returns (o: Outcome, ghost base': nat, skipUpto': nat)
      requires Sound()
      requires 0 <= termOrd < |ts| && Walking(termOrd, base, skipUpto) && |ts[termOrd]| > 0
      modifies this
      ensures Stepped(old(termOrd), skipUpto, |old(states)|, o, base', skipUpto')
    {
      var t := termOrd;
      if t == states[|states| - 1].changeOrd {
        assert skipUpto == 0;
        Pop(t);
        return Continue, |states| - 1, 0;
      }
      StartReading(t, base, skipUpto);
      var c := TermByte(data, ts, t, |states| - 1);
      var exhausted := AdvanceTop(t, base, skipUpto, c);
      if exhausted {
        if |states| == 1 {
          FrameOf(ts, automaton, states, depths, t, base, 0);
          termOrd := |data.termOffsets| - 1;
          return Done, 0, 0;
        }
        ForcePop(t, base, skipUpto);
        Moved(t, skipUpto, |old(states)|);
        return Continue, |states| - 1, 0;
      }
      o, base', skipUpto' := ReadByte(t, base, skipUpto, c);
    }

    /** Acts on byte c of term t, which does not lie above the current range. */
    method ReadByte(t: nat, ghost base: nat, skipUpto: nat, c: byte) returns (o: Outcome, ghost base': nat, skipUpto': nat)
      requires Sound()
      requires termOrd == t && Reading(t, base, skipUpto) && c == ts[t][|states| - 1] && Top().transitionUpto >= 0
      modifies this
      ensures Stepped(t, skipUpto, |old(states)|, o, base', skipUpto')
    {
      var f := states[|states| - 1];
      if c < f.transitionMin {
        termOrd := JumpToLabel(t, base, skipUpto);
        Moved(t, skipUpto, |old(states)|);
        return Continue, |states| - 1, 0;
      }
      var nextState := automaton.step(f.state, c);
      if nextState == -1 {
        termOrd := SkipDead(t, base, skipUpto);
        Moved(t, skipUpto, |old(states)|);
        return Continue, |states| - 1, 0;
      }
      StepLive(automaton, f.state, c);
      if skipUpto < NumSkips(data, ts, t) {
        o, base', skipUpto' := Descend(t, base, skipUpto, nextState);
      } else {
        o, base', skipUpto' := ReadTail(t, base, skipUpto, nextState);
      }
    }

    ghost function SkipsLeft(skipUpto: nat): int
      reads this`termOrd
    {
      if 0 <= termOrd < |ts| then |SkipList(ts, termOrd, data.minSkipCount)| - skipUpto else 0
    }

    lemma LaterNonEmpty(t: nat, t': nat)
      requires Sorted(ts) && t < t' < |ts|
      ensures |ts[t']| > 0
    {
      assert Before(ts, t, t');
    }

    /** The loop of next, started at term from: all terms passed over are rejected. */
    ghost predicate Searching(from: nat, o: Outcome, base: nat, skipUpto: nat)
      reads this
    {
      && from <= termOrd <= |ts| && NoneAccepted(ts, automaton, from, termOrd)
      && match o
         case Found => termOrd < |ts| && Accepts(automaton, ts[termOrd]) && Arrived(termOrd + 1)
         case Done => termOrd == |ts|
         case Continue => Walking(termOrd, base, skipUpto) && (termOrd < |ts| ==> |ts[termOrd]| > 0)
    }

    lemma SearchGoesOn(from: nat, t: nat, o: Outcome, skipUpto: nat, base': nat, skipUpto': nat, height: nat)
      requires Sorted(ts) && from <= t < |ts| && |ts[t]| > 0 && NoneAccepted(ts, automaton, from, t)
      requires Stepped(t, skipUpto, height, o, base', skipUpto')
      ensures Searching(from, o, base', skipUpto')
    {
      if t < termOrd < |ts| { LaterNonEmpty(t, termOrd); }
    }

    /** The rounds of the loop, from term termOrd on. */
    method Search(ghost base: nat) returns (found: bool)
      requires Sound()
      requires 0 <= termOrd <= |ts| && Walking(termOrd, base, 0)
      requires termOrd < |ts| ==> |ts[termOrd]| > 0
      modifies this
      ensures termOrd >= 0 && IsNext(ts, automaton, old(termOrd), termOrd)
      ensures found <==> termOrd < |ts|
      ensures found ==> Arrived(termOrd + 1)
    {
      ghost var from, b := termOrd, base;
      var skipUpto, o := 0, Continue;
      while o.Continue? && termOrd != |data.termOffsets| - 1
        invariant Searching(from, o, b, skipUpto)
        decreases o.Continue?, |ts| - termOrd, SkipsLeft(skipUpto), |states|
      {
        ghost var t, s0, height := termOrd, skipUpto, |states|;
        o, b, skipUpto := Examine(b, skipUpto);
        SearchGoesOn(from, t, o, s0, b, skipUpto, height);
      }
      found := o.Found?;
    }

    /** The first term, when empty, is decided by the start state alone. */
    lemma EmptyFirst()
      requires Sorted(ts)
      requires |ts| > 0 && Arrived(0) && |ts[0]| == 0
      ensures |states| == 1 && states[0].state == 0 && Arrived(1)
      ensures Accepts(automaton, ts[0]) <==> automaton.accept(0)
      ensures 1 < |ts| ==> |ts[1]| > 0
    {
      var top := |states| - 1;
      assert FrameAt(ts, automaton, states, depths, 0, top, top);
      FrameOf(ts, automaton, states, depths, 0, top, 0);
      MoveTo(0, top, 1);
      if 1 < |ts| { assert Before(ts, 0, 1); }
    }

    /** Moves to the next accepted term. None when there is none. */
    method Next() returns (r: Option<Term>)
      requires Sound()
      requires Valid()
      modifies this
      ensures termOrd >= 0 && IsNext(ts, automaton, old(termOrd) + 1, termOrd)
      ensures r == if termOrd < |ts| then Some(ts[termOrd]) else None
      ensures r.Some? ==> Valid()
    {
      termOrd := termOrd + 1;
      if termOrd == 0 && data.termOffsets[1] == 0 {
        assert TermLength(data, ts, 0) == 0;
        EmptyFirst();
        assert |states| == 1;
        if automaton.accept(states[0].state) {
          return Some(TermAt(data, ts, 0));
        }
        termOrd := 1;
      }
      if termOrd < |ts| { LongEnough(termOrd); }
      var found := Search(|states| - 1);
      r := if found then Some(TermAt(data, ts, termOrd)) else None;
    }

    lemma LongEnough(t: nat)
      requires Sound()
      requires t < |ts| && (t == 0 ==> data.termOffsets[1] != 0)
      ensures |ts[t]| > 0
    {
      if t > 0 {
        assert Before(ts, t - 1, t);
      } else {
        assert TermLength(data, ts, 0) > 0;
      }
    }

    // ----- the exclusive start term

    ghost predicate Seeking(start: Term, t: nat, base: nat, skipUpto: nat)
      reads this`states, this`depths
    {
      t < |ts| && SeekOk(ts, automaton, data.minSkipCount, start, states, depths, t, base, skipUpto)
    }

    /** The enumeration will go on with the terms above the start term. */
    ghost predicate Positioned(start: Term)
      reads this
    {
      Valid() && Splits(ts, start, termOrd + 1)
    }

    /** Scans the terms up to the start term where no pointer is left. There are fewer
        of them than minSkipCount, and only the first can have pointers. */
    method Scan(start: Term, t: nat, ghost d: nat) returns (t': nat)
      requires Sound() && t < |ts| && SharesPrefix(ts[t], start, d) && ShortRun(ts, t, d, data.minSkipCount)
      requires AllBelow(ts, t, start)
      ensures t <= t' <= RunEnd(ts, t, d) && t' - t < data.minSkipCount && Splits(ts, start, t')
      ensures forall m: nat :: t < m < t' ==> SkipList(ts, m, data.minSkipCount) == []
    {
      t' := t;
      while t' < |data.termOffsets| - 1
        invariant t <= t' <= |ts|
        invariant forall m: nat :: m < t' ==> Below(ts, m, start) || ts[m] == start
      {
        var cmp := Compare(data, ts, t', start);
        if cmp > 0 { break; }
        assert Below(ts, t', start) || ts[t'] == start;
        t' := t' + 1;
      }
      ScanStaysInRun(ts, start, t, d, t');
      SplitsHere(ts, start, t');
      forall m: nat | t < m < t' ensures SkipList(ts, m, data.minSkipCount) == [] {
        ShortRunMembers(ts, data.minSkipCount, t, d, m);
      }
    }

    /** Leaves the search so that term t' is examined next: the frames above base go,
        and the cursor of level i, moved up to the start term, is kept if it stays. */
    method LeaveAt(ghost start: Term, ghost t: nat, ghost base: nat, skipUpto: nat, g: Frame, t': nat)
      requires Sorted(ts) && Seeking(start, t, base, skipUpto) && t <= t' <= |ts|
      requires Top().changeOrd != t && |states| - 1 < |ts[t]| && |states| - 1 < |start|
      requires start[|states| - 1] <= ts[t][|states| - 1] && t' <= Top().changeOrd
      requires MovedUp(automaton, start, |states| - 1, Top(), g)
      requires Splits(ts, start, t')
      modifies this
      ensures Positioned(start)
    {
      if t' < |ts| {
        SeekUnwinds(ts, automaton, data.minSkipCount, start, states, depths, t, base, skipUpto, g, t');
      }
      var height := |states| - skipUpto;
      assert height == base + 1;
      Cut(height, g, t', base);
    }

    method Cut(height: nat, g: Frame, t': nat, ghost base: nat)
      requires 0 < height <= |states| == |depths| && height == base + 1 && t' <= |ts|
      requires t' < |ts| ==> StackOk(ts, automaton, states[|states| - 1 := g][..base + 1], depths[..base + 1], t', base)
      modifies this
      ensures Valid() && termOrd + 1 == t'
    {
      depths := depths[..height];
      states := states[|states| - 1 := g][..height];
      termOrd := t' - 1;
    }

    lemma AboveHere(start: Term, t: nat, base: nat, skipUpto: nat)
      requires Sorted(ts) && |states| > 0 && Seeking(start, t, base, skipUpto) && Top().changeOrd != t
      requires |states| - 1 < |ts[t]| && |states| - 1 < |start| && start[|states| - 1] < ts[t][|states| - 1]
      ensures Splits(ts, start, t)
    {
      LessAt(start, ts[t], |states| - 1);
      SplitsHere(ts, start, t);
    }

    /** Goes down one level of the search by a pointer of term t. */
    method SeekDown(start: Term, t: nat, ghost base: nat, skipUpto: nat, g: Frame)
      requires Sound() && Seeking(start, t, base, skipUpto) && Top().changeOrd != t
      requires |states| - 1 < |ts[t]| && |states| - 1 < |start| && start[|states| - 1] == ts[t][|states| - 1]
      requires RunTo(automaton, start, |start|) != -1 && g.state == RunTo(automaton, start, |states| - 1)
      requires MovedUp(automaton, start, |states| - 1, Top(), g)
      requires skipUpto < |SkipList(ts, t, data.minSkipCount)|
      modifies this`states, this`depths
      ensures Seeking(start, t, base, skipUpto + 1)
      ensures |states| == |old(states)| + 1 && Top().changeOrd != t
      ensures Top().state == RunTo(automaton, start, |states| - 1)
    {
      var i := |states| - 1;
      LivePrefix(automaton, start, i);
      var nextState := automaton.step(g.state, start[i]);
      var stale: int := *;
      var f := Frame(SkipAt(data, ts, t, skipUpto), nextState, -1, |automaton.ranges(nextState)|, stale, -1);
      SeekPushes(ts, automaton, data.minSkipCount, start, states, depths, t, base, skipUpto, g, f);
      states := states[i := g] + [f];
      depths := depths + [i + 1];
    }

    /** Ends the search by scanning the short run of term t. */
    method SeekByScan(start: Term, t: nat, ghost base: nat, skipUpto: nat, g: Frame)
      requires Sound() && Seeking(start, t, base, skipUpto) && Top().changeOrd != t
      requires |states| - 1 < |ts[t]| && |states| - 1 < |start| && start[|states| - 1] == ts[t][|states| - 1]
      requires MovedUp(automaton, start, |states| - 1, Top(), g)
      requires skipUpto >= |SkipList(ts, t, data.minSkipCount)|
      modifies this
      ensures Positioned(start)
    {
      SeekScans(ts, automaton, data.minSkipCount, start, states, depths, t, base, skipUpto);
      var t' := Scan(start, t, |states|);
      LeaveAt(start, t, base, skipUpto, g, t');
    }

    /** Ends the search at a run that has ended: its successor is above the start term. */
    method SeekPastRun(ghost start: Term, t: nat, ghost base: nat, ghost skipUpto: nat)
      requires Sorted(ts) && Seeking(start, t, base, skipUpto) && Top().changeOrd == t
      modifies this
      ensures Positioned(start)
    {
      SeekRunEnded(ts, automaton, data.minSkipCount, start, states, depths, t, base, skipUpto);
      Pop(t);
      termOrd := t - 1;
    }

    /** The search goes on with a later term, all before it being below the start term. */
    ghost predicate PassedTo(start: Term, t: nat, next: nat)
      reads this`states, this`depths
    {
      && |states| > 0 && t < next <= |ts| && AllBelow(ts, next, start)
      && (next < |ts| ==> Seeking(start, next, |states| - 1, 0))
    }

    /** Passes a term that is a prefix of the start term. */
    lemma PassesPrefix(start: Term, t: nat, base: nat, skipUpto: nat, next: nat)
      requires Sorted(ts) && |states| > 0 && Seeking(start, t, base, skipUpto) && Top().changeOrd != t
      requires |ts[t]| == |states| - 1 < |start| && next == t + 1
      ensures PassedTo(start, t, next)
    {
      PassPrefix(ts, automaton, data.minSkipCount, start, states, depths, t, base, skipUpto, next);
    }

    /** Passes a term with a smaller byte, or the whole run its next pointer spans. */
    lemma PassesSmaller(start: Term, t: nat, base: nat, skipUpto: nat, next: nat)
      requires Sorted(ts) && |states| > 0 && Seeking(start, t, base, skipUpto) && Top().changeOrd != t
      requires |states| - 1 < |ts[t]| && |states| - 1 < |start| && ts[t][|states| - 1] < start[|states| - 1]
      requires var skips := SkipList(ts, t, data.minSkipCount); next == if skipUpto < |skips| then skips[skipUpto] else t + 1
      ensures PassedTo(start, t, next)
    {
      PassSmaller(ts, automaton, data.minSkipCount, start, states, depths, t, base, skipUpto, next);
    }

    /** Passes a term below the start term. */
    method SeekPass(start: Term, t: nat, ghost base: nat, skipUpto: nat)
      requires Sound() && Seeking(start, t, base, skipUpto) && Top().changeOrd != t && |states| - 1 < |start|
      requires |states| - 1 <= |ts[t]| && (|states| - 1 < |ts[t]| ==> ts[t][|states| - 1] < start[|states| - 1])
      modifies this`termOrd
      ensures termOrd >= 0 && PassedTo(start, t, termOrd)
    {
      var next := t + 1;
      if TermLength(data, ts, t) == |states| - 1 {
        PassesPrefix(start, t, base, skipUpto, next);
      } else {
        if skipUpto < NumSkips(data, ts, t) { next := SkipAt(data, ts, t, skipUpto); }
        PassesSmaller(start, t, base, skipUpto, next);
      }
      termOrd := next;
    }

    ghost predicate Leveled(start: Term, t: nat, base: nat, skipUpto: nat, g: Frame)
      reads this`states, this`depths
    {
      LevelOk(ts, automaton, data.minSkipCount, start, states, depths, t, base, skipUpto, g)
    }

    /** The byte of term t at this level is not below the one looked for: the search
        goes down a level or is over. */
    method SeekStop(start: Term, t: nat, ghost base: nat, skipUpto: nat, g: Frame) returns (pushed: bool)
      requires Sound() && termOrd == t && |states| > 0 && Leveled(start, t, base, skipUpto, g) && Top().changeOrd != t
      requires |states| - 1 < |ts[t]| && start[|states| - 1] <= ts[t][|states| - 1]
      modifies this
      ensures if pushed then SeekDowned(start, base, skipUpto + 1, |old(states)|) else Positioned(start)
    {
      if start[|states| - 1] < TermByte(data, ts, t, |states| - 1) {
        AboveHere(start, t, base, skipUpto);
        FrameOf(ts, automaton, states, depths, t, base, |states| - 1);
        LeaveAt(start, t, base, skipUpto, g, t);
        pushed := false;
      } else {
        pushed := skipUpto < NumSkips(data, ts, t);
        if pushed {
          SeekDown(start, t, base, skipUpto, g);
        } else {
          SeekByScan(start, t, base, skipUpto, g);
        }
      }
    }

    /** The search has gone down a level at term termOrd. */
    ghost predicate SeekDowned(start: Term, base: nat, skipUpto: nat, height: nat)
      reads this
    {
      && termOrd >= 0 && Seeking(start, termOrd, base, skipUpto)
      && |states| == height + 1 && Top().changeOrd != termOrd
      && Top().state == RunTo(automaton, start, |states| - 1)
    }

    /** The search stands at a level of the given height, at a term or after the last. */
    ghost predicate Level(start: Term, base: nat, skipUpto: nat, g: Frame, height: nat)
      reads this
    {
      && 0 <= termOrd <= |ts| && |states| == |depths| == height
      && if termOrd < |ts| then Leveled(start, termOrd, base, skipUpto, g) else AllBelow(ts, |ts|, start)
    }

    /** Compares one term at the current level of the search. */
    method SeekRound(start: Term, t: nat, ghost base: nat, skipUpto: nat, g: Frame, ghost height: nat) returns (o: SeekOutcome)
      requires Sound() && termOrd == t && |states| == height > 0 && Leveled(start, t, base, skipUpto, g)
      modifies this
      ensures o.Passed? ==> t < termOrd && Level(start, height - 1, 0, g, height)
      ensures o.Down? ==> SeekDowned(start, base, skipUpto + 1, height)
      ensures o.Over? ==> Positioned(start)
    {
      if t == states[|states| - 1].changeOrd {
        SeekPastRun(start, t, base, skipUpto);
        return Over;
      }
      FrameOf(ts, automaton, states, depths, t, base, |states| - 1);
      if TermLength(data, ts, t) == |states| - 1 || TermByte(data, ts, t, |states| - 1) < start[|states| - 1] {
        SeekPass(start, t, base, skipUpto);
        return Passed;
      }
      var pushed := SeekStop(start, t, base, skipUpto, g);
      return if pushed then Down else Over;
    }

    /** Searches one level for the start term. Either a frame for the next level is
        pushed, or the search is over. */
    method SeekLevel(start: Term, ghost base0: nat, skipUpto0: nat, g: Frame)
      returns (pushed: bool, ghost base: nat, skipUpto: nat)
      requires Sound() && termOrd >= 0 && |states| == |depths| > 0 && Leveled(start, termOrd, base0, skipUpto0, g)
      modifies this
      ensures if pushed then SeekDowned(start, base, skipUpto, |old(states)|) else Positioned(start)
    {
      base, skipUpto := base0, skipUpto0;
      ghost var height := |states|;
      var o := Passed;
      while o.Passed? && termOrd < |data.termOffsets| - 1
        invariant LevelState(o, start, base, skipUpto, g, height)
        decreases o.Passed?, |ts| - termOrd
      {
        o := SeekRound(start, termOrd, base, skipUpto, g, height);
        if o.Passed? {
          base, skipUpto := height - 1, 0;
        } else {
          skipUpto := skipUpto + 1;
        }
      }
      if o.Passed? {
        SeekEnd(start);
      }
      pushed := o.Down?;
    }

    ghost predicate LevelState(o: SeekOutcome, start: Term, base: nat, skipUpto: nat, g: Frame, height: nat)
      reads this
    {
      match o
      case Passed => Level(start, base, skipUpto, g, height)
      case Down => SeekDowned(start, base, skipUpto, height)
      case Over => Positioned(start)
    }

    /** All terms lie below the start term. */
    method SeekEnd(start: Term)
      requires Sound() && termOrd == |ts| > 0 && |states| == |depths| > 0
      requires AllBelow(ts, |ts|, start)
      modifies this
      ensures Positioned(start)
    {
      SplitsHere(ts, start, termOrd);
      termOrd := termOrd - 1;
    }

    /** Moves the cursor of the current level up to the start term, which the automaton
        can read. */
    method SeekCursor(start: Term, ghost base: nat, ghost skipUpto: nat) returns (g: Frame)
      requires Sound() && 0 < |states| <= |start| && SeekDowned(start, base, skipUpto, |states| - 1)
      requires RunTo(automaton, start, |start|) != -1
      ensures |states| == |depths| && Leveled(start, termOrd, base, skipUpto, g)
    {
      var i := |states| - 1;
      FreshLevel(ts, automaton, data.minSkipCount, start, states, depths, termOrd, base, skipUpto);
      var exhausted;
      g, exhausted := AdvanceCursor(automaton, states[i], start, i, start[i]);
      LivePrefix(automaton, start, i);
    }

    /** All bytes of the start term are found; an equal term is excluded. */
    method SeekFinish(start: Term, ghost base: nat, skipUpto: nat)
      requires Sound() && SeekDowned(start, base, skipUpto, |start|)
      modifies this
      ensures Positioned(start)
    {
      ghost var t, next := termOrd, termOrd + 1;
      SeekFinds(ts, automaton, data.minSkipCount, start, states, depths, t, base, skipUpto, next);
      if TermAt(data, ts, termOrd) == start {
        MoveTo(t, base, next);
      } else {
        Unwind(t, base, skipUpto);
        termOrd := termOrd - 1;
        assert termOrd + 1 == t;
      }
    }

    /** Drops the frames pushed for term t. */
    method Unwind(ghost t: nat, ghost base: nat, skipUpto: nat)
      requires t < |ts| && |states| == |depths| == base + 1 + skipUpto
      requires StackOk(ts, automaton, states[..base + 1], depths[..base + 1], t, base)
      modifies this`states, this`depths
      ensures Arrived(t)
    {
      var height := |states| - skipUpto;
      assert height == base + 1;
      depths := depths[..height];
      states := states[..height];
    }

    /** Positions a new enumeration before the first term above the start term. */
    method SeekToStartTerm(start: Term)
      requires Sound() && Valid() && termOrd == -1 && |states| == 1 && depths == [0]
      requires Top().transitionUpto == -1 && RunTo(automaton, start, |start|) != -1
      modifies this
      ensures Positioned(start)
    {
      if |start| == 0 {
        if data.termOffsets[1] == 0 {
          EmptyStart(start, true);
          termOrd := 0;
        } else {
          EmptyStart(start, false);
        }
        return;
      }
      assert states == [Top()];
      SeekBegins(ts, automaton, data.minSkipCount, start, states[0]);
      termOrd := 0;
      ghost var base := 0;
      var skipUpto, pushed := 0, true;
      while |states| - 1 < |start|
        invariant |states| > 0 && SeekDowned(start, base, skipUpto, |states| - 1)
        invariant |states| - 1 <= |start|
        decreases |start| - |states|
      {
        var g := SeekCursor(start, base, skipUpto);
        pushed, base, skipUpto := SeekLevel(start, base, skipUpto, g);
        if !pushed { return; }
      }
      SeekFinish(start, base, skipUpto);
    }

    /** Only an empty first term is not above the empty start term. */
    lemma EmptyStart(start: Term, emptyFirst: bool)
      requires Sound() && Arrived(0) && |start| == 0 && (emptyFirst <==> data.termOffsets[1] == 0)
      ensures if emptyFirst then Arrived(1) && Splits(ts, start, 1) else Splits(ts, start, 0)
    {
      assert TermLength(data, ts, 0) == data.termOffsets[1];
      if emptyFirst {
        EmptyFirst();
        assert ts[0] == start;
        if 1 < |ts| { LessAt(start, ts[1], 0); }
        SplitsHere(ts, start, 1);
      } else {
        LessAt(start, ts[0], 0);
        SplitsHere(ts, start, 0);
      }
    }

    constructor (data: FieldData, automaton: Automaton, commonSuffix: Option<Term>, ghost ts: seq<Term>)
      requires |ts| > 0 && Represents(data, ts) && Sorted(ts)
      requires Deterministic(automaton) && CommonSuffix(automaton, commonSuffix)
      ensures this.data == data && this.automaton == automaton && this.commonSuffix == commonSuffix && this.ts == ts
      ensures Sound() && Valid() && termOrd == -1
      ensures |states| == 1 && depths == [0] && Top().transitionUpto == -1
    {
      this.data, this.automaton, this.commonSuffix, this.ts := data, automaton, commonSuffix, ts;
      var root := Frame(|data.termOffsets| - 1, 0, -1, |automaton.ranges(0)|, 0, -1);
      termOrd, states, depths := -1, [root], [0];
      RootFrame(ts, automaton, root);
    }

    /** Takes the next term off the accepted ones from an ordinal on. */
    method Take(ghost from: nat) returns (r: Option<Term>)
      requires Sound() && Valid() && from == termOrd + 1
      modifies this
      ensures r.None? ==> AcceptedFrom(ts, automaton, from) == []
      ensures r.Some? ==>
                && Valid() && from <= termOrd
                && AcceptedFrom(ts, automaton, from) == [r.value] + AcceptedFrom(ts, automaton, termOrd + 1)
    {
      r := Next();
      TakesFirst(ts, automaton, from, termOrd, r);
    }

    /** Calls next until it returns nothing. */
    method Drain(ghost from: nat) returns (out: seq<Term>)
      requires Sound() && Valid() && from == termOrd + 1
      modifies this
      ensures out == AcceptedFrom(ts, automaton, from)
      decreases |ts| - termOrd
    {
      var r := Take(from);
      if r.None? { return []; }
      var rest := Drain(termOrd + 1);
      out := [r.value] + rest;
    }
  }

  /** The accepted terms, above an optional start term: the reference. */
  function Matching(ts: seq<Term>, a: Automaton, start: Option<Term>): seq<Term>
  {
    if ts == [] then []
    else (if Accepts(a, ts[0]) && (start.Some? ==> Less(start.value, ts[0])) then [ts[0]] else [])
         + Matching(ts[1..], a, start)
  }

  /** Building a field and intersecting it is filtering its terms: for all sorted terms,
      all thresholds, all automata and all start terms the automaton can read. */
  method Intersect(ts: seq<Term>, minSkipCount: int, a: Automaton, commonSuffix: Option<Term>, start: Option<Term>)
    returns (out: seq<Term>)
    requires |ts| > 0 && Sorted(ts) && Deterministic(a) && CommonSuffix(a, commonSuffix)
    requires start.Some? ==> RunTo(a, start.value, |start.value|) != -1
    ensures out == Matching(ts, a, start) && Sorted(out)
    ensures forall w :: w in out <==> w in ts && Accepts(a, w) && (start.Some? ==> Less(start.value, w))
  {
    MatchingMeans(ts, a, start);
    var data, _ := BuildField(ts, minSkipCount);
    var e := new IntersectEnum(data, a, commonSuffix, ts);
    if start.Some? {
      e.SeekToStartTerm(start.value);
      MatchingAbove(ts, a, start, e.termOrd + 1);
    } else {
      MatchingAll(ts, a, 0);
    }
    out := e.Drain(e.termOrd + 1);
  }

  /** Matching keeps, in order, exactly the accepted terms above the start term. */
  lemma {:induction false} MatchingMeans(ts: seq<Term>, a: Automaton, start: Option<Term>)
    requires Sorted(ts)
    ensures Sorted(Matching(ts, a, start))
    ensures forall w :: w in Matching(ts, a, start) <==> w in ts && Accepts(a, w) && (start.Some? ==> Less(start.value, w))
    decreases |ts|
  {
    if ts != [] {
      var rest, m := ts[1..], Matching(ts[1..], a, start);
      forall i: nat, j: nat | i < j < |rest| ensures Before(rest, i, j) { assert Before(ts, i + 1, j + 1); }
      MatchingMeans(rest, a, start);
      assert ts == [ts[0]] + rest;
      forall k: nat | k < |m| ensures Less(ts[0], m[k]) { RestAbove(ts, m[k]); }
      SortedFirst(ts[0], m);
    }
  }

  lemma RestAbove(ts: seq<Term>, w: Term)
    requires Sorted(ts) && ts != [] && w in ts[1..]
    ensures Less(ts[0], w)
  {
    var i: nat :| i < |ts[1..]| && ts[1..][i] == w;
    assert Before(ts, 0, i + 1);
  }

  lemma SortedFirst(w: Term, ws: seq<Term>)
    requires Sorted(ws) && forall k: nat :: k < |ws| ==> Less(w, ws[k])
    ensures Sorted([w] + ws) && Sorted([] + ws)
  {
    assert [] + ws == ws;
    forall i: nat, j: nat | i < j < |[w] + ws| ensures Before([w] + ws, i, j) {
      if i > 0 { assert Before(ws, i - 1, j - 1); }
    }
  }

  lemma {:induction false} MatchingAll(ts: seq<Term>, a: Automaton, from: nat)
    requires from <= |ts|
    ensures AcceptedFrom(ts, a, from) == Matching(ts[from..], a, None)
    decreases |ts| - from
  {
    if from < |ts| {
      MatchingAll(ts, a, from + 1);
      assert ts[from..][1..] == ts[from + 1..];
    }
    assert ts[0..] == ts;
  }

  lemma {:induction false} MatchingAbove(ts: seq<Term>, a: Automaton, start: Option<Term>, t: nat)
    requires start.Some? && Splits(ts, start.value, t)
    ensures AcceptedFrom(ts, a, t) == Matching(ts, a, start)
  {
    MatchingFrom(ts, a, start, t, 0);
    assert ts[0..] == ts;
  }

  lemma {:induction false} MatchingFrom(ts: seq<Term>, a: Automaton, start: Option<Term>, t: nat, from: nat)
    requires start.Some? && Splits(ts, start.value, t) && from <= |ts|
    ensures Matching(ts[from..], a, start) == AcceptedFrom(ts, a, if from < t then t else from)
    decreases |ts| - from
  {
    if from < |ts| {
      MatchingFrom(ts, a, start, t, from + 1);
      assert ts[from..][1..] == ts[from + 1..];
      LessTotal(ts[from], start.value);
      if from < t {
        assert Below(ts, from, start.value) || ts[from] == start.value;
      } else {
        assert Above(ts, from, start.value);
      }
    }
  }
}
