/** The high-frequency layout, with separate lists for documents, frequencies, positions
    and payloads, and the cursors over it. */
module HighFreqCursors {
  import opened Options
  import G = Gallop
  import opened Postings
  import opened LowFreqLayout

  datatype HighFreqTerm = HighFreqTerm(
    docIds: seq<int>,
    freqs: Option<seq<int>>,
    positions: Option<seq<seq<int>>>,
    payloads: Option<seq<seq<Option<Bytes>>>>)

  /** Positions and offsets are stored without the payload lengths. */
  function Plain(fl: Flags): Flags { fl.(hasPayloads := false) }

  ghost predicate FreqsAt(freqs: seq<int>, ps: seq<Posting>, i: nat)
    requires i < |ps| == |freqs|
  {
    freqs[i] == ps[i].freq
  }

  ghost predicate PositionsAt(positions: seq<seq<int>>, ps: seq<Posting>, fl: Flags, i: nat)
    requires i < |ps| == |positions|
  {
    positions[i] == OccurrencesInts(ps[i].occurrences, Plain(fl))
  }

  function PayloadsOf(os: seq<Occurrence>): seq<Option<Bytes>> {
    seq(|os|, j requires 0 <= j < |os| => os[j].payload)
  }

  ghost predicate PayloadsAt(payloads: seq<seq<Option<Bytes>>>, ps: seq<Posting>, i: nat)
    requires i < |ps| == |payloads|
  {
    payloads[i] == PayloadsOf(ps[i].occurrences)
  }

  ghost predicate StoresHigh(term: HighFreqTerm, ps: seq<Posting>, fl: Flags) {
    && term.docIds == Docs(ps)
    && (if fl.hasFreq
        then term.freqs.Some? && |term.freqs.value| == |ps| && forall i: nat :: i < |ps| ==> FreqsAt(term.freqs.value, ps, i)
        else term.freqs.None?)
    && (fl.hasPos ==>
          term.positions.Some? && |term.positions.value| == |ps|
          && forall i: nat :: i < |ps| ==> PositionsAt(term.positions.value, ps, fl, i))
    && (fl.hasPos ==>
          if fl.hasPayloads
          then term.payloads.Some? && |term.payloads.value| == |ps|
               && forall i: nat :: i < |ps| ==> PayloadsAt(term.payloads.value, ps, i)
          else term.payloads.None?)
  }

  /** Writes one position, with its offsets, into the position list. */
  method WritePosition(docPositions: array<int>, posUpto0: nat, o: Occurrence, fl: Flags) returns (posUpto: nat)
    requires posUpto0 + PosMult(Plain(fl)) <= docPositions.Length
    modifies docPositions
    ensures posUpto == posUpto0 + PosMult(Plain(fl))
    ensures docPositions[..posUpto] == old(docPositions[..posUpto0]) + OccurrenceInts(o, Plain(fl))
  {
    posUpto := posUpto0;
    docPositions[posUpto] := o.position;
    posUpto := posUpto + 1;
    if fl.hasOffsets {
      docPositions[posUpto] := o.startOffset;
      posUpto := posUpto + 1;
      docPositions[posUpto] := o.endOffset;
      posUpto := posUpto + 1;
    }
  }

  /** Fills the position list of one document, already sized, and its payload slots. */
  method EncodeDoc(os: seq<Occurrence>, fl: Flags) returns (positions: seq<int>, payloads: seq<Option<Bytes>>)
    ensures positions == OccurrencesInts(os, Plain(fl))
    ensures fl.hasPayloads ==> payloads == PayloadsOf(os)
  {
    var mult := if fl.hasOffsets then 3 else 1;
    SpanIsProduct(Plain(fl), |os|);
    var docPositions := new int[mult * |os|];
    var slots := seq(|os|, _ => None);
    var posUpto := 0;
    for k := 0 to |os|
      invariant posUpto == Span(Plain(fl), k) <= docPositions.Length == Span(Plain(fl), |os|)
      invariant docPositions[..posUpto] == OccurrencesInts(os[..k], Plain(fl))
      invariant |slots| == |os|
      invariant forall j :: 0 <= j < |os| ==> slots[j] == if j < k && fl.hasPayloads then os[j].payload else None
    {
      SpanMonotone(Plain(fl), k + 1, |os|);
      TakeLast(os, k);
      if fl.hasPayloads && os[k].payload.Some? {
        slots := slots[k := os[k].payload];
      }
      posUpto := WritePosition(docPositions, posUpto, os[k], fl);
    }
    assert os[..|os|] == os;
    assert docPositions[..posUpto] == docPositions[..];
    positions, payloads := docPositions[..], slots;
  }

  lemma {:induction false} SpanMonotone(fl: Flags, m: nat, n: nat)
    requires m <= n
    ensures Span(fl, m) <= Span(fl, n)
    decreases n
  {
    if m < n { SpanMonotone(fl, m, n - 1); }
  }

  /** Writes the postings of a term, document by document. */
  method EncodeHigh(ps: seq<Posting>, fl: Flags) returns (term: HighFreqTerm)
    requires fl.Ordered()
    ensures StoresHigh(term, ps, fl)
  {
    var docs, freqs, positions, payloads := [], [], [], [];
    for k := 0 to |ps|
      invariant |docs| == |freqs| == |positions| == |payloads| == k
      invariant forall i :: 0 <= i < k ==> docs[i] == ps[i].doc
      invariant fl.hasFreq ==> forall i :: 0 <= i < k ==> freqs[i] == ps[i].freq
      invariant fl.hasPos ==> forall i :: 0 <= i < k ==> positions[i] == OccurrencesInts(ps[i].occurrences, Plain(fl))
      invariant fl.hasPos && fl.hasPayloads ==>
                  forall i :: 0 <= i < k ==> payloads[i] == PayloadsOf(ps[i].occurrences)
    {
      docs := docs + [ps[k].doc];
      var freq, docPositions, docPayloads := 0, [], [];
      if fl.hasFreq {
        freq := ps[k].freq;
        if fl.hasPos {
          docPositions, docPayloads := EncodeDoc(ps[k].occurrences, fl);
        }
      }
      freqs, positions, payloads := freqs + [freq], positions + [docPositions], payloads + [docPayloads];
    }
    term := HighFreqTerm(
      docs,
      if fl.hasFreq then Some(freqs) else None,
      if fl.hasPos then Some(positions) else None,
      if fl.hasPayloads then Some(payloads) else None);
    assert docs == Docs(ps);
  }

  ghost predicate HoldsHigh(term: HighFreqTerm, ps: seq<Posting>, fl: Flags) {
    PostingsOk(ps, fl) && StoresHigh(term, ps, fl)
  }

  /** Gallops to the first document after index that is not before the target; fails exactly
      when an index of the gallop overflows. */
  method GallopTo(docIds: seq<int>, ghost ps: seq<Posting>, ghost fl: Flags, index: int, target: int) returns (next: Option<nat>)
    requires PostingsOk(ps, fl) && docIds == Docs(ps) && -1 <= index < |ps|
    ensures next.None? <==> index + 1 < |ps| && G.ProbeOverflows(Docs(ps), index + 1, target)
    ensures next.Some? ==> next.value == G.FirstAtLeast(Docs(ps), index + 1, target)
  {
    var upto := index + 1;
    if upto == |docIds| {
      return Some(upto);
    }
    DocsFit(ps, fl);
    next := G.Advance(docIds, upto, target);
  }

  /** Documents and frequencies. */
  class HighFreqDocsEnum {
    const term: HighFreqTerm
    ghost const ps: seq<Posting>
    ghost const fl: Flags
    var upto: int
    var docId: int
    ghost var cur: Cursor

    ghost predicate Setup() { HoldsHigh(term, ps, fl) }

    ghost function V(): View { ViewOf(fl, false) }

    ghost predicate Valid()
      reads this
    {
      CursorOk(ps, V(), cur) && upto == cur.index && docId == DocAt(ps, cur.index)
    }

    constructor (term: HighFreqTerm, ghost ps: seq<Posting>, ghost fl: Flags)
      requires HoldsHigh(term, ps, fl)
      ensures Setup() && Valid() && cur == START && this.ps == ps && this.fl == fl
    {
      this.term, this.ps, this.fl := term, ps, fl;
      upto, docId, cur := -1, -1, START;
    }

    method NextDoc() returns (d: int)
      requires Setup() && Valid() && Legal(ps, V(), cur, Op.NextDoc)
      modifies this
      ensures Valid() && cur == After(ps, V(), old(cur), Op.NextDoc)
      ensures Number(d) == Reply(ps, V(), old(cur), Op.NextDoc)
    {
      upto := upto + 1;
      docId := if upto < |term.docIds| then term.docIds[upto] else NO_MORE_DOCS;
      cur := MoveTo(cur, cur.index + 1);
      d := docId;
    }

    /** None if an index of the gallop overflows, where the source stops. */
    method Advance(target: int) returns (r: Option<int>)
      requires Setup() && Valid() && Legal(ps, V(), cur, Op.Advance(target))
      modifies this
      ensures r.None? <==> Overflows(ps, old(cur), Op.Advance(target))
      ensures r.Some? ==> Valid() && cur == After(ps, V(), old(cur), Op.Advance(target))
      ensures r.Some? ==> Number(r.value) == Reply(ps, V(), old(cur), Op.Advance(target))
    {
      var next := GallopTo(term.docIds, ps, fl, upto, target);
      if next.None? { return None; }
      upto := next.value;
      docId := if upto == |term.docIds| then NO_MORE_DOCS else term.docIds[upto];
      cur := MoveTo(cur, upto);
      r := Some(docId);
    }

    method Freq() returns (f: int)
      requires Setup() && Valid() && Legal(ps, V(), cur, Op.Freq)
      ensures Number(f) == Reply(ps, V(), cur, Op.Freq)
    {
      if term.freqs.Some? {
        assert FreqsAt(term.freqs.value, ps, cur.index);
        f := term.freqs.value[upto];
      } else {
        f := 1;
      }
    }
  }

  /** Documents, frequencies, positions, offsets and payloads. */
  class HighFreqPostingsEnum {
    const term: HighFreqTerm
    const hasOffsets: bool
    const posJump: int
    ghost const ps: seq<Posting>
    ghost const fl: Flags
    var upto: int
    var docId: int
    var posUpto: int
    var payloadPosition: Option<(nat, nat)>
    ghost var cur: Cursor

    ghost predicate Setup() {
      HoldsHigh(term, ps, fl) && fl.hasPos && hasOffsets == fl.hasOffsets && posJump == PosMult(Plain(fl))
    }

    ghost function V(): View { ViewOf(fl, true) }

    ghost predicate PayloadIs(payload: Option<Bytes>)
      reads this`payloadPosition
    {
      if payload.None? then payloadPosition.None?
      else payloadPosition.Some? && term.payloads.Some?
           && payloadPosition.value.0 < |term.payloads.value|
           && payloadPosition.value.1 < |term.payloads.value[payloadPosition.value.0]|
           && term.payloads.value[payloadPosition.value.0][payloadPosition.value.1] == payload
    }

    ghost predicate Valid()
      reads this
    {
      && CursorOk(ps, V(), cur) && upto == cur.index && docId == DocAt(ps, cur.index)
      && (0 <= cur.index < |ps| ==> posUpto == Span(Plain(fl), cur.read) - posJump)
      && PayloadIs(cur.payload)
    }

    constructor (term: HighFreqTerm, hasOffsets: bool, ghost ps: seq<Posting>, ghost fl: Flags)
      requires HoldsHigh(term, ps, fl) && fl.hasPos && hasOffsets == fl.hasOffsets
      ensures Setup() && Valid() && cur == START && this.ps == ps && this.fl == fl
    {
      this.term, this.hasOffsets, this.ps, this.fl := term, hasOffsets, ps, fl;
      posJump := if hasOffsets then 3 else 1;
      upto, docId, posUpto, payloadPosition, cur := -1, -1, 0, None, START;
    }

    method NextDoc() returns (d: int)
      requires Setup() && Valid() && Legal(ps, V(), cur, Op.NextDoc)
      modifies this
      ensures Valid() && cur == After(ps, V(), old(cur), Op.NextDoc)
      ensures Number(d) == Reply(ps, V(), old(cur), Op.NextDoc)
    {
      upto := upto + 1;
      if upto < |term.docIds| {
        posUpto := -posJump;
        docId := term.docIds[upto];
      } else {
        docId := NO_MORE_DOCS;
      }
      cur := MoveTo(cur, cur.index + 1);
      d := docId;
    }

    /** None if an index of the gallop overflows, where the source stops. */
    method Advance(target: int) returns (r: Option<int>)
      requires Setup() && Valid() && Legal(ps, V(), cur, Op.Advance(target))
      modifies this
      ensures r.None? <==> Overflows(ps, old(cur), Op.Advance(target))
      ensures r.Some? ==> Valid() && cur == After(ps, V(), old(cur), Op.Advance(target))
      ensures r.Some? ==> Number(r.value) == Reply(ps, V(), old(cur), Op.Advance(target))
    {
      var next := GallopTo(term.docIds, ps, fl, upto, target);
      if next.None? { return None; }
      upto := next.value;
      if upto == |term.docIds| {
        docId := NO_MORE_DOCS;
      } else {
        posUpto := -posJump;
        docId := term.docIds[upto];
      }
      cur := MoveTo(cur, upto);
      r := Some(docId);
    }

    method Freq() returns (f: int)
      requires Setup() && Valid() && Legal(ps, V(), cur, Op.Freq)
      ensures Number(f) == Reply(ps, V(), cur, Op.Freq)
    {
      assert FreqsAt(term.freqs.value, ps, cur.index);
      f := term.freqs.value[upto];
    }

    /** Position j of document i stands posJump * j into the list of that document. */
    lemma ReadsHighPosition(i: nat, j: nat)
      requires Setup() && i < |ps| && j < |ps[i].occurrences|
      ensures i < |term.positions.value|
      ensures var list, at, o := term.positions.value[i], Span(Plain(fl), j), ps[i].occurrences[j];
              && Span(Plain(fl), j + 1) == at + posJump <= |list| && at == posJump * j
              && list[at] == o.position
              && (hasOffsets ==> list[at + 1] == o.startOffset && list[at + 2] == o.endOffset)
    {
      assert PositionsAt(term.positions.value, ps, fl, i);
      OccurrenceWithin(ps[i].occurrences, Plain(fl), j);
      SpanIsProduct(Plain(fl), j);
      var list, at := term.positions.value[i], Span(Plain(fl), j);
      assert StandsAt(list, at, OccurrenceInts(ps[i].occurrences[j], Plain(fl)));
      PosInts(list, at, ps[i].occurrences[j], Plain(fl));
    }

    method NextPosition() returns (pos: int)
      requires Setup() && Valid() && Legal(ps, V(), cur, Op.NextPosition)
      modifies this
      ensures Valid() && cur == After(ps, V(), old(cur), Op.NextPosition)
      ensures Number(pos) == Reply(ps, V(), old(cur), Op.NextPosition)
    {
      ghost var j := cur.read;
      ReadsHighPosition(cur.index, j);
      posUpto := posUpto + posJump;
      pos := term.positions.value[upto][posUpto];
      if term.payloads.Some? {
        assert PayloadsAt(term.payloads.value, ps, upto);
        var positionIndex := posUpto / posJump;
        assert positionIndex == j;
        payloadPosition := if term.payloads.value[upto][positionIndex].Some? then Some((upto, positionIndex)) else None;
      } else {
        payloadPosition := None;
      }
      cur := After(ps, V(), cur, Op.NextPosition);
    }

    method StartOffset() returns (r: int)
      requires Setup() && Valid() && Legal(ps, V(), cur, Op.StartOffset)
      ensures Number(r) == Reply(ps, V(), cur, Op.StartOffset)
    {
      if hasOffsets {
        ReadsHighPosition(cur.index, cur.read - 1);
        r := term.positions.value[upto][posUpto + 1];
      } else {
        r := -1;
      }
    }

    method EndOffset() returns (r: int)
      requires Setup() && Valid() && Legal(ps, V(), cur, Op.EndOffset)
      ensures Number(r) == Reply(ps, V(), cur, Op.EndOffset)
    {
      if hasOffsets {
        ReadsHighPosition(cur.index, cur.read - 1);
        r := term.positions.value[upto][posUpto + 2];
      } else {
        r := -1;
      }
    }

    method GetPayload() returns (r: Option<Bytes>)
      requires Valid()
      ensures Data(r) == Reply(ps, V(), cur, Op.Payload)
    {
      if payloadPosition.None? { return None; }
      var (docIndex, positionIndex) := payloadPosition.value;
      r := term.payloads.value[docIndex][positionIndex];
    }
  }
}
