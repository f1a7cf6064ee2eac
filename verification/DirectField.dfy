/** Building a field: the sorted terms are flattened into one byte array, and the
    skip pointers are found by counting how long each prefix has been shared. */
module DirectField {
  import opened Arithmetic
  import opened Terms
  import opened SkipTable
  import opened SkipBuild

  datatype FieldData = FieldData(
    termBytes: seq<byte>,
    termOffsets: seq<nat>,
    skips: seq<nat>,
    skipOffsets: seq<nat>,
    minSkipCount: int)

  /** Cell t of a flattened table spans offsets[t] .. offsets[t + 1]. */
  predicate CellIs<T(==)>(flat: seq<T>, offsets: seq<nat>, t: nat, cell: seq<T>)
    requires t + 1 < |offsets|
  {
    offsets[t] <= offsets[t + 1] <= |flat| && flat[offsets[t]..offsets[t + 1]] == cell
  }

  lemma CellExtend<T>(flat: seq<T>, offsets: seq<nat>, t: nat, cell: seq<T>, more: seq<T>, moreOffsets: seq<nat>)
    requires t + 1 < |offsets| && CellIs(flat, offsets, t, cell)
    ensures CellIs(flat + more, offsets + moreOffsets, t, cell)
  {
    var lo, hi := offsets[t], offsets[t + 1];
    assert (flat + more)[lo..hi] == flat[lo..hi];
  }

  lemma CellLast<T>(flat: seq<T>, offsets: seq<nat>, cell: seq<T>)
    requires offsets != [] && offsets[|offsets| - 1] == |flat|
    ensures CellIs(flat + cell, offsets + [|flat| + |cell|], |offsets| - 1, cell)
  {
  }

  lemma CellByte<T>(flat: seq<T>, offsets: seq<nat>, t: nat, cell: seq<T>, k: nat)
    requires t + 1 < |offsets| && CellIs(flat, offsets, t, cell) && k < |cell|
    ensures offsets[t] + k < |flat| && flat[offsets[t] + k] == cell[k]
  {
    assert flat[offsets[t]..offsets[t + 1]][k] == flat[offsets[t] + k];
  }

  /** The flattened arrays hold exactly the terms and their skip lists. */
  ghost predicate Represents(data: FieldData, ts: seq<Term>) {
    && |data.termOffsets| == |data.skipOffsets| == |ts| + 1
    && data.termOffsets[0] == 0
    && (forall t {:trigger CellIs(data.termBytes, data.termOffsets, t, ts[t])} :: 0 <= t < |ts| ==>
          CellIs(data.termBytes, data.termOffsets, t, ts[t]))
    && (forall t {:trigger CellIs(data.skips, data.skipOffsets, t, SkipList(ts, t, data.minSkipCount))} ::
          0 <= t < |ts| ==> CellIs(data.skips, data.skipOffsets, t, SkipList(ts, t, data.minSkipCount)))
  }

  // ----- reading the tables

  function TermLength(data: FieldData, ghost ts: seq<Term>, ord: nat): (n: nat)
    requires Represents(data, ts) && ord < |ts|
    ensures n == |ts[ord]|
  {
    assert CellIs(data.termBytes, data.termOffsets, ord, ts[ord]);
    data.termOffsets[ord + 1] - data.termOffsets[ord]
  }

  function TermByte(data: FieldData, ghost ts: seq<Term>, ord: nat, k: nat): (c: byte)
    requires Represents(data, ts) && ord < |ts| && k < |ts[ord]|
    ensures c == ts[ord][k]
  {
    CellByte(data.termBytes, data.termOffsets, ord, ts[ord], k);
    data.termBytes[data.termOffsets[ord] + k]
  }

  function TermAt(data: FieldData, ghost ts: seq<Term>, ord: nat): (term: Term)
    requires Represents(data, ts) && ord < |ts|
    ensures term == ts[ord]
  {
    assert CellIs(data.termBytes, data.termOffsets, ord, ts[ord]);
    data.termBytes[data.termOffsets[ord]..data.termOffsets[ord + 1]]
  }

  function NumSkips(data: FieldData, ghost ts: seq<Term>, ord: nat): (n: nat)
    requires Represents(data, ts) && ord < |ts|
    ensures n == |SkipList(ts, ord, data.minSkipCount)|
  {
    assert CellIs(data.skips, data.skipOffsets, ord, SkipList(ts, ord, data.minSkipCount));
    data.skipOffsets[ord + 1] - data.skipOffsets[ord]
  }

  function SkipAt(data: FieldData, ghost ts: seq<Term>, ord: nat, j: nat): (e: nat)
    requires Represents(data, ts) && ord < |ts| && j < |SkipList(ts, ord, data.minSkipCount)|
    ensures e == SkipList(ts, ord, data.minSkipCount)[j]
  {
    CellByte(data.skips, data.skipOffsets, ord, SkipList(ts, ord, data.minSkipCount), j);
    data.skips[data.skipOffsets[ord] + j]
  }

  /** Compares a term with another byte string in unsigned byte order. */
  method Compare(data: FieldData, ghost ts: seq<Term>, ord: nat, other: Term) returns (cmp: int)
    requires Represents(data, ts) && ord < |ts|
    ensures cmp < 0 <==> Less(ts[ord], other)
    ensures cmp > 0 <==> Less(other, ts[ord])
    ensures cmp == 0 <==> ts[ord] == other
  {
    ghost var term := ts[ord];
    LessTotal(term, other);
    var termLen := TermLength(data, ts, ord);
    var stop := if termLen < |other| then termLen else |other|;
    var upto := 0;
    while upto < stop
      invariant 0 <= upto <= stop && SharesPrefix(term, other, upto)
    {
      var diff := TermByte(data, ts, ord, upto) - other[upto];
      if diff != 0 {
        LcpUnique(term, other, upto);
        LcpUnique(other, term, upto);
        return diff;
      }
      SharesExtend(term, other, upto);
      upto := upto + 1;
    }
    LcpUnique(term, other, upto);
    LcpUnique(other, term, upto);
    assert term[..upto] == other[..upto];
    cmp := termLen - |other|;
  }

  function Total(lists: seq<seq<nat>>): nat {
    if lists == [] then 0 else |lists[0]| + Total(lists[1..])
  }

  lemma {:induction false} TotalUpdate(lists: seq<seq<nat>>, s: nat, x: nat)
    requires s < |lists|
    ensures Total(lists[s := lists[s] + [x]]) == Total(lists) + 1
  {
    if s == 0 {
      assert lists[0 := lists[0] + [x]][1..] == lists[1..];
    } else {
      TotalUpdate(lists[1..], s - 1, x);
      assert lists[s := lists[s] + [x]][1..] == lists[1..][s - 1 := lists[1..][s - 1] + [x]];
    }
  }

  lemma {:induction false} TotalAppend(lists: seq<seq<nat>>, last: seq<nat>)
    ensures Total(lists + [last]) == Total(lists) + |last|
  {
    if lists == [] {
      assert Total([last]) == |last| + Total([]);
    } else {
      TotalAppend(lists[1..], last);
      assert (lists + [last])[1..] == lists[1..] + [last];
    }
  }

  lemma {:induction false} TotalSame(a: seq<seq<nat>>, b: seq<seq<nat>>)
    requires |a| == |b| && forall i :: 0 <= i < |a| ==> |a[i]| == |b[i]|
    ensures Total(a) == Total(b)
  {
    if a != [] { TotalSame(a[1..], b[1..]); }
  }

  /** The pointers below ordinal e are complete, and those saved on reaching e are
      complete for prefixes of up to limit bytes. */
  ghost predicate SavedUpTo(ts: seq<Term>, p: seq<seq<nat>>, e: nat, minSkip: int, limit: nat)
    requires e <= |ts|
  {
    e <= |p| && forall s: nat {:trigger SavedAt(ts, p[s], s, e, minSkip, limit)} :: s < e ==> SavedAt(ts, p[s], s, e, minSkip, limit)
  }

  ghost predicate SavedAt(ts: seq<Term>, list: seq<nat>, s: nat, e: nat, minSkip: int, limit: nat)
    requires s < e <= |ts|
  {
    list == Pending(ts, s, e, minSkip) + ClosedAt(ts, s, e, minSkip, limit)
  }

  /** The first c terms hold the pointers they have when the ordinals below c are done. */
  ghost predicate PendingAll(ts: seq<Term>, p: seq<seq<nat>>, c: nat, minSkip: int)
    requires c <= |ts| + 1
  {
    && Min(c, |ts|) <= |p|
    && forall s: nat {:trigger PendingIs(ts, p[s], s, c, minSkip)} :: s < c && s < |ts| ==> PendingIs(ts, p[s], s, c, minSkip)
  }

  ghost predicate PendingIs(ts: seq<Term>, list: seq<nat>, s: nat, c: nat, minSkip: int)
    requires s < |ts| && s < c <= |ts| + 1
  {
    list == Pending(ts, s, c, minSkip)
  }

  lemma SavedStart(ts: seq<Term>, p: seq<seq<nat>>, e: nat, minSkip: int)
    requires e <= |ts| && PendingAll(ts, p, e, minSkip)
    ensures SavedUpTo(ts, p, e, minSkip, AdjLcp(ts, e))
  {
    forall s: nat | s < e ensures SavedAt(ts, p[s], s, e, minSkip, AdjLcp(ts, e)) {
      assert PendingIs(ts, p[s], s, e, minSkip);
    }
  }

  lemma {:induction false} SavedAdvance(ts: seq<Term>, p: seq<seq<nat>>, e: nat, minSkip: int, limit: nat)
    requires 0 < e <= |ts| && AdjLcp(ts, e) <= limit < |ts[e - 1]|
    requires SavedUpTo(ts, p, e, minSkip, limit)
    ensures var s := RunStart(ts, e - 1, limit + 1);
            SavedUpTo(ts, if e - s >= minSkip then p[s := p[s] + [e]] else p, e, minSkip, limit + 1)
  {
    var s0 := RunStart(ts, e - 1, limit + 1);
    var p' := if e - s0 >= minSkip then p[s0 := p[s0] + [e]] else p;
    forall s: nat | s < e ensures SavedAt(ts, p'[s], s, e, minSkip, limit + 1) {
      assert SavedAt(ts, p[s], s, e, minSkip, limit);
      ClosedStep(ts, s, e, minSkip, limit);
    }
  }

  lemma SavedEnd(ts: seq<Term>, p: seq<seq<nat>>, e: nat, minSkip: int)
    requires 0 < e <= |ts| && SavedUpTo(ts, p, e, minSkip, |ts[e - 1]|)
    requires e < |ts| ==> e < |p| && p[e] == []
    ensures PendingAll(ts, p, e + 1, minSkip)
  {
    forall s: nat | s < e ensures PendingIs(ts, p[s], s, e + 1, minSkip) {
      assert SavedAt(ts, p[s], s, e, minSkip, |ts[e - 1]|);
      PendingNext(ts, s, e, e + 1, minSkip, |ts[e - 1]|);
    }
  }

  /** How often the prefix of i + 1 bytes of the last of c terms has been seen in a row. */
  ghost function CountAt(ts: seq<Term>, c: nat, i: nat): int
    requires c <= |ts|
  {
    if 0 < c && i < |ts[c - 1]| then c - RunStart(ts, c - 1, i + 1) else 0
  }

  /** A shared byte continues its run; any other byte of the new term starts one. */
  lemma CountStep(ts: seq<Term>, c: nat, i: nat)
    requires 0 < c < |ts|
    ensures i < AdjLcp(ts, c) ==> CountAt(ts, c + 1, i) == CountAt(ts, c, i) + 1
    ensures AdjLcp(ts, c) <= i < |ts[c]| ==> CountAt(ts, c + 1, i) == 1
    ensures |ts[c]| <= i ==> CountAt(ts, c + 1, i) == 0
  {
  }

  /** Starts the counts of the bytes the new term has beyond its predecessor. */
  function StartCounts(ghost ts: seq<Term>, ghost c: nat, counts: seq<int>, limit: nat, termLength: nat): (r: seq<int>)
    requires 0 < c < |ts| && termLength == |ts[c]| <= |counts| && AdjLcp(ts, c) <= limit <= termLength
    requires limit == termLength || limit == |ts[c - 1]|
    requires forall k :: 0 <= k < AdjLcp(ts, c) ==> counts[k] == CountAt(ts, c + 1, k)
    requires forall k :: AdjLcp(ts, c) <= k < limit ==> counts[k] == 1
    requires forall k :: termLength <= k < |counts| ==> counts[k] == 0
    ensures |r| == |counts|
    ensures forall k :: 0 <= k < |r| ==> r[k] == CountAt(ts, c + 1, k)
  {
    counts[..limit] + seq(termLength - limit, _ => 1) + counts[termLength..]
  }

  class FieldBuilder {
    const minSkipCount: int
    var termBytes: seq<byte>
    var termOffsets: seq<nat>
    var sameCounts: seq<int>
    var pending: seq<seq<nat>>
    var skipCount: nat

    ghost predicate HoldsTerms(ts: seq<Term>, c: nat)
      reads this`termBytes, this`termOffsets
      requires c <= |ts|
    {
      && |termOffsets| == c + 1 && termOffsets[0] == 0
      && termOffsets[c] == |termBytes|
      && forall t :: 0 <= t < c ==> CellIs(termBytes, termOffsets, t, ts[t])
    }

    ghost predicate HoldsCounts(ts: seq<Term>, c: nat)
      reads this`sameCounts
      requires c <= |ts|
    {
      && (0 < c ==> |ts[c - 1]| <= |sameCounts|)
      && forall i :: 0 <= i < |sameCounts| ==> sameCounts[i] == CountAt(ts, c, i)
    }

    ghost predicate HoldsPending(ts: seq<Term>, c: nat)
      reads this`pending, this`skipCount
      requires c <= |ts|
    {
      skipCount == Total(pending) && PendingAll(ts, pending, c, minSkipCount)
    }

    constructor (minSkipCount: int)
      ensures this.minSkipCount == minSkipCount
      ensures pending == []
      ensures HoldsTerms([], 0) && HoldsCounts([], 0) && HoldsPending([], 0)
    {
      this.minSkipCount := minSkipCount;
      termBytes, termOffsets, sameCounts, pending, skipCount := [], [0], seq(10, _ => 0), [], 0;
    }

    method SaveSkip(ord: nat, backCount: int)
      requires 0 < backCount <= ord && ord - backCount < |pending|
      requires skipCount == Total(pending)
      modifies this`pending, this`skipCount
      ensures pending == old(pending)[ord - backCount := old(pending)[ord - backCount] + [ord]]
      ensures skipCount == Total(pending)
    {
      TotalUpdate(pending, ord - backCount, ord);
      skipCount := skipCount + 1;
      pending := pending[ord - backCount := pending[ord - backCount] + [ord]];
    }

    /** Closes the prefix of i + 1 bytes at ordinal ord: a run that is long enough
        leaves a pointer at the term that started it. The count restarts. */
    method CloseDepth(ghost ts: seq<Term>, ord: nat, i: nat, restart: int)
      requires 0 < ord <= |ts| && AdjLcp(ts, ord) <= i < |ts[ord - 1]| && i < |sameCounts|
      requires sameCounts[i] == CountAt(ts, ord, i)
      requires SavedUpTo(ts, pending, ord, minSkipCount, i)
      requires skipCount == Total(pending)
      modifies this`pending, this`skipCount, this`sameCounts
      ensures SavedUpTo(ts, pending, ord, minSkipCount, i + 1)
      ensures |pending| == |old(pending)| && pending[ord..] == old(pending)[ord..]
      ensures skipCount == Total(pending)
      ensures sameCounts == old(sameCounts)[i := restart]
    {
      SavedAdvance(ts, pending, ord, minSkipCount, i);
      if sameCounts[i] >= minSkipCount {
        SaveSkip(ord, sameCounts[i]);
      }
      sameCounts := sameCounts[i := restart];
    }

    /** Counts the bytes the term shares with its predecessor once more. */
    method CountShared(ghost ts: seq<Term>, termOrd: nat, limit: nat) returns (i: nat)
      requires 0 < termOrd < |ts| && HoldsTerms(ts, termOrd + 1) && HoldsCounts(ts, termOrd)
      requires limit == Min(|ts[termOrd]|, |ts[termOrd - 1]|)
      modifies this`sameCounts
      ensures i == AdjLcp(ts, termOrd) && |sameCounts| == |old(sameCounts)|
      ensures forall k :: 0 <= k < i ==> sameCounts[k] == CountAt(ts, termOrd + 1, k)
      ensures forall k :: i <= k < |sameCounts| ==> sameCounts[k] == CountAt(ts, termOrd, k)
    {
      var lastTermOffset := termOffsets[termOrd - 1];
      var termOffset := termOffsets[termOrd];
      ghost var a, b := ts[termOrd - 1], ts[termOrd];
      assert CellIs(termBytes, termOffsets, termOrd - 1, a) && CellIs(termBytes, termOffsets, termOrd, b);
      i := 0;
      while i < limit
        invariant 0 <= i <= limit && |sameCounts| == |old(sameCounts)|
        invariant SharesPrefix(a, b, i)
        invariant lastTermOffset == termOffsets[termOrd - 1] + i && termOffset == termOffsets[termOrd] + i
        invariant forall k :: 0 <= k < i ==> sameCounts[k] == old(sameCounts)[k] + 1
        invariant forall k :: i <= k < |sameCounts| ==> sameCounts[k] == old(sameCounts)[k]
      {
        CellByte(termBytes, termOffsets, termOrd - 1, a, i);
        CellByte(termBytes, termOffsets, termOrd, b, i);
        if termBytes[lastTermOffset] != termBytes[termOffset] { break; }
        SharesExtend(a, b, i);
        sameCounts := sameCounts[i := sameCounts[i] + 1];
        lastTermOffset, termOffset, i := lastTermOffset + 1, termOffset + 1, i + 1;
      }
      LcpUnique(a, b, i);
      forall k | 0 <= k < i ensures sameCounts[k] == CountAt(ts, termOrd + 1, k) {
        CountStep(ts, termOrd, k);
      }
    }

    /** Closes the prefixes of from + 1 .. to bytes and restarts their counts. */
    method CloseDepths(ghost ts: seq<Term>, ord: nat, from: nat, to: nat, restart: int)
      requires 0 < ord <= |ts| && AdjLcp(ts, ord) <= from <= to <= |ts[ord - 1]| && to <= |sameCounts|
      requires forall k :: from <= k < to ==> sameCounts[k] == CountAt(ts, ord, k)
      requires SavedUpTo(ts, pending, ord, minSkipCount, from)
      requires skipCount == Total(pending)
      modifies this`pending, this`skipCount, this`sameCounts
      ensures SavedUpTo(ts, pending, ord, minSkipCount, to)
      ensures |pending| == |old(pending)| && pending[ord..] == old(pending)[ord..]
      ensures skipCount == Total(pending)
      ensures |sameCounts| == |old(sameCounts)|
      ensures forall k :: 0 <= k < |sameCounts| ==>
                sameCounts[k] == if from <= k < to then restart else old(sameCounts)[k]
    {
      var i := from;
      while i < to
        invariant from <= i <= to
        invariant SavedUpTo(ts, pending, ord, minSkipCount, i)
        invariant |pending| == |old(pending)| && pending[ord..] == old(pending)[ord..]
        invariant skipCount == Total(pending)
        invariant |sameCounts| == |old(sameCounts)|
        invariant forall k :: 0 <= k < |sameCounts| ==>
                    sameCounts[k] == if from <= k < i then restart else old(sameCounts)[k]
      {
        CloseDepth(ts, ord, i, restart);
        i := i + 1;
      }
    }

    /** Continues the runs the new term shares and closes those it does not. */
    method CloseRuns(ghost ts: seq<Term>, termOrd: nat, termLength: nat, lastTermLength: nat)
      requires 0 < termOrd < |ts| && termLength == |ts[termOrd]| && lastTermLength == |ts[termOrd - 1]|
      requires HoldsTerms(ts, termOrd + 1) && HoldsCounts(ts, termOrd) && HoldsPending(ts, termOrd)
      requires |pending| == termOrd + 1 && pending[termOrd] == [] && termLength <= |sameCounts|
      modifies this`pending, this`skipCount, this`sameCounts
      ensures HoldsCounts(ts, termOrd + 1)
      ensures SavedUpTo(ts, pending, termOrd, minSkipCount, lastTermLength)
      ensures |pending| == termOrd + 1 && pending[termOrd] == [] && skipCount == Total(pending)
    {
      var limit := if termLength < lastTermLength then termLength else lastTermLength;
      var i := CountShared(ts, termOrd, limit);
      SavedStart(ts, pending, termOrd, minSkipCount);
      CloseDepths(ts, termOrd, i, limit, 1);
      CloseDepths(ts, termOrd, limit, lastTermLength, 0);
      assert pending[termOrd] == pending[termOrd..][0];
      sameCounts := StartCounts(ts, termOrd, sameCounts, limit, termLength);
    }

    method SetSkips(ghost ts: seq<Term>, termOrd: nat)
      requires termOrd < |ts|
      requires HoldsTerms(ts, termOrd + 1) && HoldsCounts(ts, termOrd) && HoldsPending(ts, termOrd)
      requires |pending| == termOrd + 1 && pending[termOrd] == []
      modifies this`pending, this`skipCount, this`sameCounts
      ensures HoldsCounts(ts, termOrd + 1) && HoldsPending(ts, termOrd + 1)
      ensures |pending| == termOrd + 1
    {
      assert CellIs(termBytes, termOffsets, termOrd, ts[termOrd]);
      var termLength := termOffsets[termOrd + 1] - termOffsets[termOrd];
      if |sameCounts| < termLength {
        sameCounts := sameCounts + seq(termLength - |sameCounts|, _ => 0);
      }
      if termOrd > 0 {
        assert CellIs(termBytes, termOffsets, termOrd - 1, ts[termOrd - 1]);
        var lastTermLength := termOffsets[termOrd] - termOffsets[termOrd - 1];
        CloseRuns(ts, termOrd, termLength, lastTermLength);
        SavedEnd(ts, pending, termOrd, minSkipCount);
      } else {
        sameCounts := seq(termLength, _ => 1) + sameCounts[termLength..];
      }
    }

    method FinishSkips(ghost ts: seq<Term>, count: nat)
      requires count == |ts|
      requires HoldsTerms(ts, count) && HoldsCounts(ts, count) && HoldsPending(ts, count)
      requires |pending| == count
      modifies this`pending, this`skipCount, this`sameCounts
      ensures |pending| == |ts| && skipCount == Total(pending)
      ensures forall t :: 0 <= t < |ts| ==> pending[t] == SkipList(ts, t, minSkipCount)
    {
      if count == 0 { return; }
      assert CellIs(termBytes, termOffsets, count - 1, ts[count - 1]);
      var lastTermLength := termOffsets[count] - termOffsets[count - 1];
      assert lastTermLength == |ts[count - 1]|;
      SavedStart(ts, pending, count, minSkipCount);
      CloseDepths(ts, count, 0, lastTermLength, 0);
      SavedEnd(ts, pending, count, minSkipCount);
      ghost var saved := pending;
      ReverseAll();
      forall t | 0 <= t < |ts| ensures pending[t] == SkipList(ts, t, minSkipCount) {
        assert PendingIs(ts, saved[t], t, count + 1, minSkipCount);
        PendingIsSkipList(ts, t, minSkipCount);
      }
    }

    method ReverseAll()
      requires skipCount == Total(pending)
      modifies this`pending
      ensures |pending| == |old(pending)| && skipCount == Total(pending)
      ensures forall t :: 0 <= t < |pending| ==> pending[t] == Reverse(old(pending)[t])
    {
      var i := 0;
      while i < |pending|
        invariant 0 <= i <= |pending| == |old(pending)|
        invariant forall t :: 0 <= t < i ==> pending[t] == Reverse(old(pending)[t])
        invariant forall t :: i <= t < |pending| ==> pending[t] == old(pending)[t]
      {
        pending := pending[i := Reverse(pending[i])];
        i := i + 1;
      }
      TotalSame(old(pending), pending);
    }

    /** Appends one term to the flattened bytes, with no pointers yet. */
    method AppendTerm(ghost ts: seq<Term>, ghost c: nat, term: Term)
      requires c < |ts| && ts[c] == term && HoldsTerms(ts, c) && HoldsPending(ts, c)
      modifies this`termBytes, this`termOffsets, this`pending
      ensures HoldsTerms(ts, c + 1) && HoldsPending(ts, c) && pending == old(pending) + [[]]
    {
      AppendBytes(ts, c, term);
      TotalAppend(pending, []);
      forall s: nat | s < c ensures PendingIs(ts, (pending + [[]])[s], s, c, minSkipCount) {
        assert PendingIs(ts, pending[s], s, c, minSkipCount);
      }
      pending := pending + [[]];
    }

    method AppendBytes(ghost ts: seq<Term>, ghost c: nat, term: Term)
      requires c < |ts| && ts[c] == term && HoldsTerms(ts, c)
      modifies this`termBytes, this`termOffsets
      ensures HoldsTerms(ts, c + 1)
    {
      forall t | 0 <= t < c + 1
        ensures CellIs(termBytes + term, termOffsets + [|termBytes| + |term|], t, ts[t])
      {
        if t < c {
          CellExtend(termBytes, termOffsets, t, ts[t], term, [|termBytes| + |term|]);
        } else {
          CellLast(termBytes, termOffsets, term);
        }
      }
      termBytes := termBytes + term;
      termOffsets := termOffsets + [|termBytes|];
    }
  }

  /** Lays the lists end to end. */
  method Flatten(lists: seq<seq<nat>>) returns (flat: seq<nat>, offsets: seq<nat>)
    ensures |offsets| == |lists| + 1 && offsets[|lists|] == |flat| == Total(lists)
    ensures forall t :: 0 <= t < |lists| ==> CellIs(flat, offsets, t, lists[t])
  {
    flat, offsets := [], [0];
    var i := 0;
    while i < |lists|
      invariant 0 <= i <= |lists| && |offsets| == i + 1 && offsets[i] == |flat| == Total(lists[..i])
      invariant forall t :: 0 <= t < i ==> CellIs(flat, offsets, t, lists[t])
    {
      forall t | 0 <= t < i + 1
        ensures CellIs(flat + lists[i], offsets + [|flat| + |lists[i]|], t, lists[t])
      {
        if t < i {
          CellExtend(flat, offsets, t, lists[t], lists[i], [|flat| + |lists[i]|]);
        } else {
          CellLast(flat, offsets, lists[i]);
        }
      }
      flat := flat + lists[i];
      offsets := offsets + [|flat|];
      TotalAppend(lists[..i], lists[i]);
      assert lists[..i + 1] == lists[..i] + [lists[i]];
      i := i + 1;
    }
    assert lists[..i] == lists;
  }

  /** Builds the tables of a field: whatever the terms are, the flattened arrays hold
      them and, for each, exactly the ends of its long runs. */
  method BuildField(ts: seq<Term>, minSkipCount: int) returns (data: FieldData, skipCount: nat)
    ensures Represents(data, ts)
    ensures data.minSkipCount == minSkipCount
    ensures |data.skips| == skipCount == data.skipOffsets[|ts|]
  {
    var b := new FieldBuilder(minSkipCount);
    var count := 0;
    while count < |ts|
      invariant 0 <= count <= |ts| && |b.pending| == count && fresh(b)
      invariant b.HoldsTerms(ts, count) && b.HoldsCounts(ts, count) && b.HoldsPending(ts, count)
    {
      b.AppendTerm(ts, count, ts[count]);
      b.SetSkips(ts, count);
      assert b.HoldsTerms(ts, count + 1) && b.HoldsCounts(ts, count + 1) && b.HoldsPending(ts, count + 1);
      count := count + 1;
    }
    b.FinishSkips(ts, count);
    var skips, skipOffsets := Flatten(b.pending);
    skipCount := b.skipCount;
    data := FieldData(b.termBytes, b.termOffsets, skips, skipOffsets, minSkipCount);
  }
}
