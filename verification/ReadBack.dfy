/** Reading a whole term back through its cursor gives the postings that were stored. */
module ReadBack {
  import opened Options
  import opened Gallop
  import opened Postings
  import opened DirectPostings
  import L = LowFreqLayout
  import H = HighFreqCursors

  ghost predicate StandsOn(e: DirectPostingsEnum, ps: seq<Posting>, v: View, i: int)
    reads Object(e)
  {
    Reads(e, ps, v) && Valid(e) && CursorOk(ps, v, Cur(e)) && Cur(e).index == i
  }

  /** The cursor stands on document i and has read j of its positions. */
  ghost predicate StandsAt(e: DirectPostingsEnum, ps: seq<Posting>, v: View, i: int, j: nat)
    reads Object(e)
  {
    StandsOn(e, ps, v, i) && (v.positions ==> Cur(e).read == j)
  }

  /** Encodes a term in the layout its document frequency selects and opens a cursor on it. */
  method Open(ps: seq<Posting>, fl: Flags, lowFreqCutoff: int) returns (e: DirectPostingsEnum, ghost stored: seq<Posting>)
    requires PostingsOk(ps, fl)
    ensures fresh(Object(e)) && StandsAt(e, stored, ViewOf(fl, true), -1, 0) && PostingsOk(stored, fl)
    ensures stored == if |ps| <= lowFreqCutoff then Normalized(ps) else ps
    ensures Gallops(e) ==> |ps| > lowFreqCutoff
  {
    if |ps| <= lowFreqCutoff {
      var term := L.Encode(ps, fl);
      SameStream(ps, fl);
      L.StoresReadable(term, Normalized(ps), fl);
      NormalizedOk(ps, fl);
      stored := Normalized(ps);
      e := ForLowTerm(term, stored, fl, true);
    } else {
      var term := H.EncodeHigh(ps, fl);
      stored := ps;
      e := ForHighTerm(term, ps, fl, true);
    }
  }

  /** Reads the next position with its offsets and payload. */
  method ReadOccurrence(e: DirectPostingsEnum, ghost ps: seq<Posting>, ghost v: View, ghost i: nat, ghost j: nat) returns (o: Occurrence)
    requires i < |ps| && j < |ps[i].occurrences| && v.positions && StandsAt(e, ps, v, i, j)
    modifies Object(e)
    ensures StandsAt(e, ps, v, i, j + 1)
    ensures o.position == ps[i].occurrences[j].position
    ensures v.offsets ==> o.startOffset == ps[i].occurrences[j].startOffset && o.endOffset == ps[i].occurrences[j].endOffset
    ensures v.payloads ==> o.payload == ps[i].occurrences[j].payload
  {
    var position := DirectPostings.NextPosition(e, ps, v);
    var startOffset := DirectPostings.StartOffset(e, ps, v);
    var endOffset := DirectPostings.EndOffset(e, ps, v);
    var payload := GetPayload(e, ps, v);
    o := Occurrence(position, startOffset, endOffset, payload);
  }

  /** What was read of a stored posting. */
  ghost predicate ReadOf(fl: Flags, p: Posting, q: Posting) {
    && q.doc == p.doc && (fl.hasFreq ==> q.freq == p.freq)
    && (fl.hasPos ==> |q.occurrences| == |p.occurrences| && forall j: nat :: j < |p.occurrences| ==> OccurrenceOf(fl, p, q, j))
  }

  ghost predicate OccurrenceOf(fl: Flags, p: Posting, q: Posting, j: nat) {
    && j < |p.occurrences| && j < |q.occurrences|
    && q.occurrences[j].position == p.occurrences[j].position
    && (fl.hasOffsets ==> q.occurrences[j].startOffset == p.occurrences[j].startOffset && q.occurrences[j].endOffset == p.occurrences[j].endOffset)
    && (fl.hasPayloads ==> q.occurrences[j].payload == p.occurrences[j].payload)
  }

  /** Reads what the field has of the document the cursor stands on. */
  method ReadPosting(e: DirectPostingsEnum, d: int, ghost ps: seq<Posting>, fl: Flags, ghost i: nat) returns (q: Posting)
    requires PostingsOk(ps, fl) && i < |ps| && d == ps[i].doc && StandsAt(e, ps, ViewOf(fl, true), i, 0)
    modifies Object(e)
    ensures StandsOn(e, ps, ViewOf(fl, true), i)
    ensures ReadOf(fl, ps[i], q)
  {
    assert PostingAt(ps, fl, i);
    ghost var v := ViewOf(fl, true);
    var freq := DirectPostings.Freq(e, ps, v);
    q := Posting(d, freq, []);
    if fl.hasPos {
      for j := 0 to freq
        invariant StandsAt(e, ps, v, i, j) && q.doc == d && q.freq == freq && |q.occurrences| == j
        invariant forall k: nat :: k < j ==> OccurrenceOf(fl, ps[i], q, k)
      {
        ghost var before := q;
        var o := ReadOccurrence(e, ps, v, i, j);
        q := q.(occurrences := q.occurrences + [o]);
        forall k: nat | k < j + 1 ensures OccurrenceOf(fl, ps[i], q, k) {
          if k < j { assert OccurrenceOf(fl, ps[i], before, k); }
        }
      }
    }
  }

  method Step(e: DirectPostingsEnum, ghost ps: seq<Posting>, ghost v: View, ghost i: int) returns (d: int)
    requires -1 <= i < |ps| && StandsOn(e, ps, v, i)
    modifies Object(e)
    ensures StandsAt(e, ps, v, i + 1, 0) && d == DocAt(ps, i + 1)
  {
    d := DirectPostings.NextDoc(e, ps, v);
  }

  /** Reads all documents. */
  method ReadRest(e: DirectPostingsEnum, ghost ps: seq<Posting>, fl: Flags) returns (qs: seq<Posting>)
    requires PostingsOk(ps, fl) && StandsAt(e, ps, ViewOf(fl, true), -1, 0)
    modifies Object(e)
    ensures |qs| == |ps| && forall i: nat :: i < |ps| ==> ReadOf(fl, ps[i], qs[i])
  {
    qs := [];
    var d := Step(e, ps, ViewOf(fl, true), -1);
    while d != NO_MORE_DOCS
      invariant |qs| <= |ps| && StandsAt(e, ps, ViewOf(fl, true), |qs|, 0) && d == DocAt(ps, |qs|)
      invariant forall i: nat :: i < |qs| ==> ReadOf(fl, ps[i], qs[i])
      decreases |ps| - |qs|
    {
      var q := ReadPosting(e, d, ps, fl, |qs|);
      d := Step(e, ps, ViewOf(fl, true), |qs|);
      qs := qs + [q];
    }
    AtEnd(ps, fl, |qs|);
  }

  /** No document is the end. */
  lemma AtEnd(ps: seq<Posting>, fl: Flags, i: nat)
    requires PostingsOk(ps, fl) && i <= |ps|
    ensures DocAt(ps, i) == NO_MORE_DOCS <==> i == |ps|
  {
    if i < |ps| { assert PostingAt(ps, fl, i); }
  }

  /** What is read of a posting as the layout stores it, field by field. */
  lemma GivenBack(fl: Flags, low: bool, p: Posting, stored: Posting, q: Posting)
    requires ReadOf(fl, stored, q) && stored == if low then NormalPosting(p) else p
    ensures q.doc == p.doc && (fl.hasFreq ==> q.freq == p.freq)
    ensures fl.hasPos ==> |q.occurrences| == |p.occurrences|
    ensures fl.hasPos ==> forall j :: 0 <= j < |p.occurrences| ==> q.occurrences[j].position == p.occurrences[j].position
    ensures fl.hasPos && fl.hasOffsets ==> forall j :: 0 <= j < |p.occurrences| ==>
              q.occurrences[j].startOffset == p.occurrences[j].startOffset && q.occurrences[j].endOffset == p.occurrences[j].endOffset
    ensures fl.hasPos && fl.hasPayloads ==> forall j :: 0 <= j < |p.occurrences| ==>
              q.occurrences[j].payload == if low && p.occurrences[j].payload == Some([]) then None else p.occurrences[j].payload
  {
    if fl.hasPos {
      forall j | 0 <= j < |p.occurrences|
        ensures q.occurrences[j].position == p.occurrences[j].position
        ensures fl.hasOffsets ==>
                  q.occurrences[j].startOffset == p.occurrences[j].startOffset && q.occurrences[j].endOffset == p.occurrences[j].endOffset
        ensures fl.hasPayloads ==>
                  q.occurrences[j].payload == if low && p.occurrences[j].payload == Some([]) then None else p.occurrences[j].payload
      {
        assert OccurrenceOf(fl, stored, q, j);
      }
    }
  }

  /** Whatever the cutoff, reading all of a term gives back what was indexed of it, except
      that a low-frequency term gives no payload for one that is present but empty. */
  method ReadAll(ps: seq<Posting>, fl: Flags, lowFreqCutoff: int) returns (qs: seq<Posting>)
    requires PostingsOk(ps, fl)
    ensures |qs| == |ps|
    ensures forall i :: 0 <= i < |ps| ==> qs[i].doc == ps[i].doc && (fl.hasFreq ==> qs[i].freq == ps[i].freq)
    ensures fl.hasPos ==> forall i :: 0 <= i < |ps| ==> |qs[i].occurrences| == |ps[i].occurrences|
    ensures fl.hasPos ==> forall i, j :: 0 <= i < |ps| && 0 <= j < |ps[i].occurrences| ==>
                            qs[i].occurrences[j].position == ps[i].occurrences[j].position
    ensures fl.hasOffsets ==> forall i, j :: 0 <= i < |ps| && 0 <= j < |ps[i].occurrences| ==>
                                && qs[i].occurrences[j].startOffset == ps[i].occurrences[j].startOffset
                                && qs[i].occurrences[j].endOffset == ps[i].occurrences[j].endOffset
    ensures fl.hasPos && fl.hasPayloads ==> forall i, j :: 0 <= i < |ps| && 0 <= j < |ps[i].occurrences| ==>
              qs[i].occurrences[j].payload ==
              if |ps| <= lowFreqCutoff && ps[i].occurrences[j].payload == Some([]) then None else ps[i].occurrences[j].payload
  {
    var e, stored := Open(ps, fl, lowFreqCutoff);
    qs := ReadRest(e, stored, fl);
    forall i | 0 <= i < |ps|
      ensures qs[i].doc == ps[i].doc && (fl.hasFreq ==> qs[i].freq == ps[i].freq)
      ensures fl.hasPos ==> |qs[i].occurrences| == |ps[i].occurrences|
      ensures fl.hasPos ==> forall j :: 0 <= j < |ps[i].occurrences| ==>
                              qs[i].occurrences[j].position == ps[i].occurrences[j].position
      ensures fl.hasPos && fl.hasOffsets ==> forall j :: 0 <= j < |ps[i].occurrences| ==>
                && qs[i].occurrences[j].startOffset == ps[i].occurrences[j].startOffset
                && qs[i].occurrences[j].endOffset == ps[i].occurrences[j].endOffset
      ensures fl.hasPos && fl.hasPayloads ==> forall j :: 0 <= j < |ps[i].occurrences| ==>
                qs[i].occurrences[j].payload ==
                if |ps| <= lowFreqCutoff && ps[i].occurrences[j].payload == Some([]) then None else ps[i].occurrences[j].payload
    {
      GivenBack(fl, |ps| <= lowFreqCutoff, ps[i], stored[i], qs[i]);
    }
  }

  /** Advancing a new cursor to a target and reading there gives the first posting that is
      not before it, or nothing if there is none. It fails only if a probe overflows. */
  method ReadFrom(ps: seq<Posting>, fl: Flags, lowFreqCutoff: int, target: int) returns (ok: bool, q: Option<Posting>, ghost i: nat)
    requires PostingsOk(ps, fl) && 0 <= target <= NO_MORE_DOCS
    ensures !ok ==> |ps| > lowFreqCutoff && ProbeOverflows(Docs(ps), 0, target)
    ensures ok && q.None? ==> forall k :: 0 <= k < |ps| ==> ps[k].doc < target
    ensures ok && q.Some? ==>
              && i < |ps| && q.value.doc == ps[i].doc >= target && (forall k :: 0 <= k < i ==> ps[k].doc < target)
              && (fl.hasFreq ==> q.value.freq == ps[i].freq)
    ensures ok && q.Some? && fl.hasPos ==> |q.value.occurrences| == |ps[i].occurrences|
    ensures ok && q.Some? && fl.hasPos ==> forall j :: 0 <= j < |ps[i].occurrences| ==>
                                             q.value.occurrences[j].position == ps[i].occurrences[j].position
    ensures ok && q.Some? && fl.hasOffsets ==> forall j :: 0 <= j < |ps[i].occurrences| ==>
              && q.value.occurrences[j].startOffset == ps[i].occurrences[j].startOffset
              && q.value.occurrences[j].endOffset == ps[i].occurrences[j].endOffset
    ensures ok && q.Some? && fl.hasPos && fl.hasPayloads ==> forall j :: 0 <= j < |ps[i].occurrences| ==>
              q.value.occurrences[j].payload ==
              if |ps| <= lowFreqCutoff && ps[i].occurrences[j].payload == Some([]) then None else ps[i].occurrences[j].payload
  {
    var e, stored := Open(ps, fl, lowFreqCutoff);
    var d;
    ok, d, i := GoTo(e, target, stored, fl);
    assert Docs(stored) == Docs(ps);
    assert forall k :: 0 <= k < i ==> Docs(ps)[k] < target;
    q := None;
    if ok && d != NO_MORE_DOCS {
      var p := ReadPosting(e, d, stored, fl, i);
      GivenBack(fl, |ps| <= lowFreqCutoff, ps[i], stored[i], p);
      q := Some(p);
    }
  }

  /** Advances a new cursor. */
  method GoTo(e: DirectPostingsEnum, target: int, ghost ps: seq<Posting>, ghost fl: Flags) returns (ok: bool, d: int, ghost i: nat)
    requires PostingsOk(ps, fl) && StandsAt(e, ps, ViewOf(fl, true), -1, 0) && 0 <= target <= NO_MORE_DOCS
    modifies Object(e)
    ensures !ok ==> Gallops(e) && ProbeOverflows(Docs(ps), 0, target)
    ensures i <= |ps| && (forall k :: 0 <= k < i ==> Docs(ps)[k] < target)
    ensures ok ==> StandsAt(e, ps, ViewOf(fl, true), i, 0) && (d == NO_MORE_DOCS <==> i == |ps|)
    ensures ok && i < |ps| ==> d == ps[i].doc >= target
  {
    i := FirstAtLeast(Docs(ps), 0, target);
    AtEnd(ps, fl, i);
    var r := DirectPostings.Advance(e, target, ps, ViewOf(fl, true));
    ok := r.Some?;
    d := if ok then r.value else 0;
    assert i < |ps| ==> Docs(ps)[i] >= target;
  }
}
