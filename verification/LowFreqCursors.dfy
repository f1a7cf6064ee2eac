/** The cursors over the low-frequency layout. Each is proved to answer as the reference
    cursor does. */
module LowFreqCursors {
  import opened Options
  import opened Gallop
  import opened Postings
  import opened LowFreqLayout

  ghost predicate NonEmptyPayload(ps: seq<Posting>, i: nat, j: nat)
    requires i < |ps| && j < |ps[i].occurrences|
  {
    ps[i].occurrences[j].payload != Some([])
  }

  /** A payload that is present but empty is written like one that is absent. */
  ghost predicate NoEmptyPayloads(ps: seq<Posting>) {
    forall i: nat, j: nat :: i < |ps| && j < |ps[i].occurrences| ==> NonEmptyPayload(ps, i, j)
  }

  ghost predicate Holds(term: LowFreqTerm, ps: seq<Posting>, fl: Flags) {
    PostingsOk(ps, fl) && Readable(term, ps, fl)
  }

  /** The documents from lo on, before hi, all come before the target. */
  ghost predicate PassedOver(ps: seq<Posting>, lo: int, hi: nat, target: int) {
    0 <= lo <= hi <= |ps| && forall k: nat :: lo <= k < hi ==> DocAt(ps, k) < target
  }

  lemma PassedReaches(ps: seq<Posting>, v: View, c: Cursor, target: int, i: nat)
    requires CursorOk(ps, v, c) && Legal(ps, v, c, Op.Advance(target))
    requires PassedOver(ps, c.index + 1, i, target) && DocAt(ps, i) >= target
    ensures After(ps, v, c, Op.Advance(target)) == MoveTo(c, i)
    ensures Reply(ps, v, c, Op.Advance(target)) == Number(DocAt(ps, i))
  {
    var j := FirstAtLeast(Docs(ps), c.index + 1, target);
    assert i < |ps| ==> Docs(ps)[i] == DocAt(ps, i);
    assert c.index + 1 <= j < i ==> DocAt(ps, j) < target;
    assert i == j;
  }

  lemma {:induction false} SpanSum(fl: Flags, m: nat, n: nat)
    ensures Span(fl, m + n) == Span(fl, m) + PosMult(fl) * n
  {
    SpanIsProduct(fl, m);
    SpanIsProduct(fl, m + n);
  }

  lemma DocStride(ps: seq<Posting>, fl: Flags, i: nat)
    requires PostingsOk(ps, fl) && fl.hasPos && i < |ps|
    ensures DocStart(ps, fl, i + 1) == DocStart(ps, fl, i) + (2 + ps[i].freq * PosMult(fl))
  {
    assert PostingAt(ps, fl, i);
    SpanIsProduct(fl, ps[i].freq);
  }

  /** Documents only. */
  class LowFreqDocsEnumNoTf {
    const term: LowFreqTerm
    ghost const ps: seq<Posting>
    ghost const fl: Flags
    var upto: int
    ghost var cur: Cursor

    ghost predicate Setup() { Holds(term, ps, fl) && !fl.hasFreq }

    ghost predicate Valid()
      reads this
    {
      && CursorOk(ps, ViewOf(fl, false), cur)
      && (cur.index == -1 ==> upto == -1)
      && (cur.index >= 0 ==> upto == DocStart(ps, fl, cur.index))
    }

    constructor (term: LowFreqTerm, ghost ps: seq<Posting>, ghost fl: Flags)
      requires Holds(term, ps, fl) && !fl.hasFreq
      ensures Setup() && Valid() && cur == START && this.ps == ps && this.fl == fl
    {
      this.term, this.ps, this.fl := term, ps, fl;
      upto, cur := -1, START;
    }

    method DocId() returns (d: int)
      requires Setup() && Valid()
      ensures d == DocAt(ps, cur.index)
    {
      if cur.index >= 0 { assert DocReads(term, ps, fl, cur.index); }
      d := if upto == -1 then -1 else if upto < |term.postings| then term.postings[upto] else NO_MORE_DOCS;
    }

    method NextDoc() returns (d: int)
      requires Setup() && Valid() && Legal(ps, ViewOf(fl, false), cur, Op.NextDoc)
      modifies this
      ensures Valid() && cur == After(ps, ViewOf(fl, false), old(cur), Op.NextDoc)
      ensures Number(d) == Reply(ps, ViewOf(fl, false), old(cur), Op.NextDoc)
    {
      assert DocReads(term, ps, fl, if cur.index == -1 then 0 else cur.index);
      upto := if upto == -1 then 0 else upto + 1;
      cur := MoveTo(cur, cur.index + 1);
      d := DocId();
    }

    method Advance(target: int) returns (d: int)
      requires Setup() && Valid() && Legal(ps, ViewOf(fl, false), cur, Op.Advance(target))
      modifies this
      ensures Valid() && cur == After(ps, ViewOf(fl, false), old(cur), Op.Advance(target))
      ensures Number(d) == Reply(ps, ViewOf(fl, false), old(cur), Op.Advance(target))
    {
      ghost var c := cur;
      d := NextDoc();
      while d < target
        invariant Valid() && 0 <= cur.index && cur == MoveTo(c, cur.index) && d == DocAt(ps, cur.index)
        invariant PassedOver(ps, c.index + 1, cur.index, target)
        decreases |ps| - cur.index
      {
        assert PassedOver(ps, c.index + 1, cur.index + 1, target);
        d := NextDoc();
      }
      PassedReaches(ps, ViewOf(fl, false), c, target, cur.index);
    }

    method Freq() returns (f: int)
      requires Setup() && Valid() && Legal(ps, ViewOf(fl, false), cur, Op.Freq)
      ensures Number(f) == Reply(ps, ViewOf(fl, false), cur, Op.Freq)
    {
      f := 1;
    }
  }

  /** Documents and frequencies. */
  class LowFreqDocsEnumNoPos {
    const term: LowFreqTerm
    ghost const ps: seq<Posting>
    ghost const fl: Flags
    var upto: int
    ghost var cur: Cursor

    ghost predicate Setup() { Holds(term, ps, fl) && fl.hasFreq && !fl.hasPos }

    ghost predicate Valid()
      reads this
    {
      && CursorOk(ps, ViewOf(fl, false), cur)
      && (cur.index == -1 ==> upto == -1)
      && (cur.index >= 0 ==> upto == DocStart(ps, fl, cur.index))
    }

    constructor (term: LowFreqTerm, ghost ps: seq<Posting>, ghost fl: Flags)
      requires Holds(term, ps, fl) && fl.hasFreq && !fl.hasPos
      ensures Setup() && Valid() && cur == START && this.ps == ps && this.fl == fl
    {
      this.term, this.ps, this.fl := term, ps, fl;
      upto, cur := -1, START;
    }

    method DocId() returns (d: int)
      requires Setup() && Valid()
      ensures d == DocAt(ps, cur.index)
    {
      if cur.index >= 0 { assert DocReads(term, ps, fl, cur.index); }
      d := if upto == -1 then -1 else if upto < |term.postings| then term.postings[upto] else NO_MORE_DOCS;
    }

    method NextDoc() returns (d: int)
      requires Setup() && Valid() && Legal(ps, ViewOf(fl, false), cur, Op.NextDoc)
      modifies this
      ensures Valid() && cur == After(ps, ViewOf(fl, false), old(cur), Op.NextDoc)
      ensures Number(d) == Reply(ps, ViewOf(fl, false), old(cur), Op.NextDoc)
    {
      assert DocReads(term, ps, fl, if cur.index == -1 then 0 else cur.index);
      upto := if upto == -1 then 0 else upto + 2;
      cur := MoveTo(cur, cur.index + 1);
      d := DocId();
    }

    method Advance(target: int) returns (d: int)
      requires Setup() && Valid() && Legal(ps, ViewOf(fl, false), cur, Op.Advance(target))
      modifies this
      ensures Valid() && cur == After(ps, ViewOf(fl, false), old(cur), Op.Advance(target))
      ensures Number(d) == Reply(ps, ViewOf(fl, false), old(cur), Op.Advance(target))
    {
      ghost var c := cur;
      d := NextDoc();
      while d < target
        invariant Valid() && 0 <= cur.index && cur == MoveTo(c, cur.index) && d == DocAt(ps, cur.index)
        invariant PassedOver(ps, c.index + 1, cur.index, target)
        decreases |ps| - cur.index
      {
        assert PassedOver(ps, c.index + 1, cur.index + 1, target);
        d := NextDoc();
      }
      PassedReaches(ps, ViewOf(fl, false), c, target, cur.index);
    }

    method Freq() returns (f: int)
      requires Setup() && Valid() && Legal(ps, ViewOf(fl, false), cur, Op.Freq)
      ensures Number(f) == Reply(ps, ViewOf(fl, false), cur, Op.Freq)
    {
      assert DocReads(term, ps, fl, cur.index);
      f := term.postings[upto + 1];
    }
  }

  /** Documents and frequencies of a field with positions, which are skipped. */
  class LowFreqDocsEnum {
    const term: LowFreqTerm
    const posMult: nat
    ghost const ps: seq<Posting>
    ghost const fl: Flags
    var upto: int
    var freq: int
    ghost var cur: Cursor

    ghost predicate Setup() { Holds(term, ps, fl) && fl.hasPos && posMult == PosMult(fl) }

    ghost predicate Valid()
      reads this
    {
      && CursorOk(ps, ViewOf(fl, false), cur)
      && (0 <= cur.index < |ps| ==> freq == ps[cur.index].freq)
      && (cur.index == -1 ==> upto == -1)
      && (cur.index >= 0 ==> upto == DocStart(ps, fl, cur.index))
    }

    constructor (term: LowFreqTerm, posMult: nat, ghost ps: seq<Posting>, ghost fl: Flags)
      requires Holds(term, ps, fl) && fl.hasPos && posMult == PosMult(fl)
      ensures Setup() && Valid() && cur == START && this.ps == ps && this.fl == fl
    {
      this.term, this.ps, this.fl := term, ps, fl;
      this.posMult, freq := posMult, 0;
      upto, cur := -1, START;
    }

    method DocId() returns (d: int)
      requires Setup() && Valid()
      ensures d == DocAt(ps, cur.index)
    {
      if cur.index >= 0 { assert DocReads(term, ps, fl, cur.index); }
      d := if upto == -1 then -1 else if upto < |term.postings| then term.postings[upto] else NO_MORE_DOCS;
    }

    method NextDoc() returns (d: int)
      requires Setup() && Valid() && Legal(ps, ViewOf(fl, false), cur, Op.NextDoc)
      modifies this
      ensures Valid() && cur == After(ps, ViewOf(fl, false), old(cur), Op.NextDoc)
      ensures Number(d) == Reply(ps, ViewOf(fl, false), old(cur), Op.NextDoc)
    {
      d := Step();
    }

    /** Moves to the next entry. */
    method Step() returns (d: int)
      requires Setup() && Valid() && cur.index < |ps|
      modifies this
      ensures Valid() && cur == MoveTo(old(cur), old(cur.index) + 1) && d == DocAt(ps, cur.index)
    {
      ReadEntry(cur.index + 1);
      cur := MoveTo(cur, cur.index + 1);
      d := DocId();
    }

    /** Moves to entry i, past the positions of the entry before it. */
    method ReadEntry(ghost i: nat)
      requires Setup() && Valid() && i == cur.index + 1 <= |ps|
      modifies this`upto, this`freq
      ensures upto == DocStart(ps, fl, i) && (i < |ps| ==> freq == ps[i].freq)
    {
      if i > 0 { DocStride(ps, fl, i - 1); }
      upto := if upto == -1 then 0 else upto + (2 + freq * posMult);
      assert DocReads(term, ps, fl, i);
      if upto < |term.postings| {
        freq := term.postings[upto + 1];
      }
    }

    method Advance(target: int) returns (d: int)
      requires Setup() && Valid() && Legal(ps, ViewOf(fl, false), cur, Op.Advance(target))
      modifies this
      ensures Valid() && cur == After(ps, ViewOf(fl, false), old(cur), Op.Advance(target))
      ensures Number(d) == Reply(ps, ViewOf(fl, false), old(cur), Op.Advance(target))
    {
      ghost var c := cur;
      d := Step();
      while d < target
        invariant Valid() && 0 <= cur.index && cur == MoveTo(c, cur.index) && d == DocAt(ps, cur.index)
        invariant PassedOver(ps, c.index + 1, cur.index, target)
        decreases |ps| - cur.index
      {
        assert PassedOver(ps, c.index + 1, cur.index + 1, target);
        d := Step();
      }
      PassedReaches(ps, ViewOf(fl, false), c, target, cur.index);
    }

    method Freq() returns (f: int)
      requires Setup() && Valid() && Legal(ps, ViewOf(fl, false), cur, Op.Freq)
      ensures Number(f) == Reply(ps, ViewOf(fl, false), cur, Op.Freq)
    {
      f := freq;
    }
  }

  /** Documents, frequencies, positions, offsets and payloads. */
  class LowFreqPostingsEnum {
    const term: LowFreqTerm
    const posMult: nat
    const hasOffsets: bool
    const hasPayloads: bool
    ghost const ps: seq<Posting>
    ghost const fl: Flags
    var payloadPosition: Option<(nat, nat)>
    var upto: nat
    var docId: int
    var freq: int
    var skipPositions: int
    var startOffset: int
    var endOffset: int
    var payloadOffset: nat
    ghost var cur: Cursor

    ghost predicate Setup() {
      && Holds(term, ps, fl) && NoEmptyPayloads(ps) && fl.hasPos
      && hasOffsets == fl.hasOffsets && hasPayloads == fl.hasPayloads && posMult == PosMult(fl)
    }

    ghost function V(): View { ViewOf(fl, true) }

    /** The cursor stands before position read of document i. */
    ghost predicate StandsBefore(i: nat, read: nat)
      reads this`upto, this`payloadOffset
      requires i < |ps| && read <= |ps[i].occurrences|
    {
      upto == PosStart(ps, fl, i, read) && (hasPayloads ==> payloadOffset == PayloadStart(ps, fl, i, read))
    }

    /** The cursor stands before document i. */
    ghost predicate StandsBetween(i: nat)
      reads this`upto, this`payloadOffset
      requires i <= |ps|
    {
      upto == DocStart(ps, fl, i) && (hasPayloads ==> payloadOffset == DocBytesStart(ps, fl, i))
    }

    ghost predicate PayloadIs(payload: Option<Bytes>)
      reads this`payloadPosition
    {
      if payload.None? then payloadPosition.None?
      else payloadPosition.Some? && term.payloads.Some?
           && |payload.value| == payloadPosition.value.1
           && StandsAt(term.payloads.value, payloadPosition.value.0, payload.value)
    }

    ghost predicate OffsetsAre(i: int, read: nat)
      reads this`startOffset, this`endOffset
    {
      if hasOffsets
      then (0 <= i < |ps| && 0 < read <= |ps[i].occurrences| ==>
              && startOffset == ps[i].occurrences[read - 1].startOffset
              && endOffset == ps[i].occurrences[read - 1].endOffset)
      else startOffset == -1 && endOffset == -1
    }

    ghost predicate EntryIs(i: int, read: nat)
      reads this`upto, this`payloadOffset, this`freq, this`skipPositions
    {
      && (i == -1 ==> StandsBetween(0) && skipPositions == 0)
      && (0 <= i < |ps| ==>
            && read <= |ps[i].occurrences| && StandsBefore(i, read)
            && freq == ps[i].freq && skipPositions == |ps[i].occurrences| - read)
    }

    ghost predicate Valid()
      reads this
    {
      && CursorOk(ps, V(), cur) && docId == DocAt(ps, cur.index)
      && PayloadIs(cur.payload) && OffsetsAre(cur.index, cur.read) && EntryIs(cur.index, cur.read)
    }

    constructor (term: LowFreqTerm, hasOffsets: bool, hasPayloads: bool, ghost ps: seq<Posting>, ghost fl: Flags)
      requires Holds(term, ps, fl) && NoEmptyPayloads(ps) && fl.hasPos
      requires hasOffsets == fl.hasOffsets && hasPayloads == fl.hasPayloads
      ensures Setup() && Valid() && cur == START && this.ps == ps && this.fl == fl
    {
      this.term, this.hasOffsets, this.hasPayloads, this.ps, this.fl := term, hasOffsets, hasPayloads, ps, fl;
      posMult := if hasOffsets then (if hasPayloads then 4 else 3) else if hasPayloads then 2 else 1;
      payloadPosition, upto, docId, freq, skipPositions := None, 0, -1, 0, 0;
      startOffset, endOffset, payloadOffset, cur := -1, -1, 0, START;
    }

    /** Skips one position without reading it. */
    method SkipPosition(ghost i: nat, ghost j: nat)
      requires Setup() && hasPayloads && i < |ps| && j < |ps[i].occurrences| && StandsBefore(i, j)
      modifies this`upto, this`payloadOffset
      ensures StandsBefore(i, j + 1)
    {
      upto := upto + 1;
      if hasOffsets {
        upto := upto + 2;
      }
      ReadsLength(term, ps, fl, i, j, upto);
      assert PayloadReads(term, ps, fl, i, j);
      var length := term.postings[upto];
      upto := upto + 1;
      payloadOffset := payloadOffset + length;
    }

    /** Skips the positions of the current document that were not read. */
    method SkipRest()
      requires Setup() && Valid() && cur.index < |ps|
      modifies this`upto, this`payloadOffset
      ensures StandsBetween(cur.index + 1)
    {
      if hasPayloads {
        var k := 0;
        while k < skipPositions
          invariant 0 <= k <= skipPositions
          invariant if cur.index == -1 then StandsBetween(0) else StandsBefore(cur.index, cur.read + k)
        {
          SkipPosition(cur.index, cur.read + k);
          k := k + 1;
        }
      } else {
        if cur.index >= 0 { SpanSum(fl, cur.read, skipPositions); }
        upto := upto + posMult * skipPositions;
      }
    }

    method NextDoc() returns (d: int)
      requires Setup() && Valid() && Legal(ps, V(), cur, Op.NextDoc)
      modifies this
      ensures Valid() && cur == After(ps, V(), old(cur), Op.NextDoc)
      ensures Number(d) == Reply(ps, V(), old(cur), Op.NextDoc)
    {
      d := Step();
    }

    /** Moves to the next entry. */
    method Step() returns (d: int)
      requires Setup() && Valid() && cur.index < |ps|
      modifies this
      ensures Valid() && cur == MoveTo(old(cur), old(cur.index) + 1) && d == DocAt(ps, cur.index)
    {
      SkipRest();
      ReadHeader(cur.index + 1);
      cur := MoveTo(cur, cur.index + 1);
      d := docId;
    }

    /** Reads the document and frequency of entry i, if there is one. */
    method ReadHeader(ghost i: nat)
      requires Setup() && i <= |ps| && StandsBetween(i)
      modifies this`upto, this`docId, this`freq, this`skipPositions
      ensures docId == DocAt(ps, i) && EntryIs(i, 0)
    {
      assert DocReads(term, ps, fl, i);
      if upto < |term.postings| {
        assert PostingAt(ps, fl, i);
        docId := term.postings[upto];
        upto := upto + 1;
        freq := term.postings[upto];
        upto := upto + 1;
        skipPositions := freq;
      } else {
        docId := NO_MORE_DOCS;
      }
    }

    method Advance(target: int) returns (d: int)
      requires Setup() && Valid() && Legal(ps, V(), cur, Op.Advance(target))
      modifies this
      ensures Valid() && cur == After(ps, V(), old(cur), Op.Advance(target))
      ensures Number(d) == Reply(ps, V(), old(cur), Op.Advance(target))
    {
      ghost var c, v := cur, V();
      d := Step();
      while d < target
        invariant Valid() && 0 <= cur.index && cur == MoveTo(c, cur.index) && d == DocAt(ps, cur.index)
        invariant PassedOver(ps, c.index + 1, cur.index, target)
        decreases |ps| - cur.index
      {
        assert PassedOver(ps, c.index + 1, cur.index + 1, target);
        d := Step();
      }
      PassedReaches(ps, v, c, target, cur.index);
    }

    method Freq() returns (f: int)
      requires Valid() && Legal(ps, V(), cur, Op.Freq) && fl.hasFreq
      ensures Number(f) == Reply(ps, V(), cur, Op.Freq)
    {
      f := freq;
    }

    /** Reads the payload length of position j and moves past its payload. */
    method ReadPayload(ghost i: nat, ghost j: nat)
      requires Setup() && hasPayloads && i < |ps| && j < |ps[i].occurrences|
      requires upto < |term.postings| && term.postings[upto] == |PayloadOf(ps[i].occurrences[j])|
      requires payloadOffset == PayloadStart(ps, fl, i, j)
      modifies this`upto, this`payloadOffset, this`payloadPosition
      ensures upto == old(upto) + 1 && payloadOffset == PayloadStart(ps, fl, i, j + 1)
      ensures PayloadIs(ps[i].occurrences[j].payload)
    {
      assert PayloadReads(term, ps, fl, i, j);
      assert NonEmptyPayload(ps, i, j);
      var payloadLength := term.postings[upto];
      upto := upto + 1;
      payloadPosition := if payloadLength > 0 then Some((payloadOffset, payloadLength)) else None;
      payloadOffset := payloadOffset + payloadLength;
    }

    method NextPosition() returns (pos: int)
      requires Setup() && Valid() && Legal(ps, V(), cur, Op.NextPosition)
      modifies this
      ensures Valid() && cur == After(ps, V(), old(cur), Op.NextPosition)
      ensures Number(pos) == Reply(ps, V(), old(cur), Op.NextPosition)
    {
      pos := ReadPosition(cur.index, cur.read);
      cur := After(ps, V(), cur, Op.NextPosition);
    }

    /** Reads the offsets of position j of document i, if there are any. */
    method ReadOffsets(ghost i: nat, ghost j: nat)
      requires Setup() && i < |ps| && j < |ps[i].occurrences| && upto == PosStart(ps, fl, i, j) + 1 && OffsetsAre(i, j)
      modifies this`upto, this`startOffset, this`endOffset
      ensures upto == old(upto) + (if hasOffsets then 2 else 0) && OffsetsAre(i, j + 1)
    {
      if hasOffsets {
        ReadsOffsets(term, ps, fl, i, j, upto);
        startOffset := term.postings[upto];
        upto := upto + 1;
        endOffset := term.postings[upto];
        upto := upto + 1;
      }
    }

    /** Reads position j of document i with what belongs to it. */
    method ReadPosition(ghost i: nat, ghost j: nat) returns (pos: int)
      requires Setup() && i < |ps| && j < |ps[i].occurrences| && EntryIs(i, j) && OffsetsAre(i, j)
      requires !hasPayloads ==> PayloadIs(None)
      modifies this`upto, this`payloadOffset, this`payloadPosition, this`startOffset, this`endOffset, this`skipPositions
      ensures pos == ps[i].occurrences[j].position && EntryIs(i, j + 1) && OffsetsAre(i, j + 1)
      ensures PayloadIs(if hasPayloads then ps[i].occurrences[j].payload else None)
    {
      assert PositionReads(term, ps, fl, i, j);
      skipPositions := skipPositions - 1;
      pos := term.postings[upto];
      upto := upto + 1;
      ReadOffsets(i, j);
      if hasPayloads {
        ReadsLength(term, ps, fl, i, j, upto);
        ReadPayload(i, j);
      }
    }

    method StartOffset() returns (r: int)
      requires Setup() && Valid() && Legal(ps, V(), cur, Op.StartOffset)
      ensures Number(r) == Reply(ps, V(), cur, Op.StartOffset)
    {
      r := startOffset;
    }

    method EndOffset() returns (r: int)
      requires Setup() && Valid() && Legal(ps, V(), cur, Op.EndOffset)
      ensures Number(r) == Reply(ps, V(), cur, Op.EndOffset)
    {
      r := endOffset;
    }

    method GetPayload() returns (r: Option<Bytes>)
      requires Valid()
      ensures Data(r) == Reply(ps, V(), cur, Op.Payload)
    {
      if payloadPosition.None? { return None; }
      var (offset, length) := payloadPosition.value;
      r := Some(term.payloads.value[offset..offset + length]);
    }
  }
}
