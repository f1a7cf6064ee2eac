/** The low-frequency layout: all of a term's documents, frequencies, positions, offsets
    and payload lengths in one list of integers, the payload bytes in another. */
module LowFreqLayout {
  import opened Options
  import opened Postings

  datatype LowFreqTerm = LowFreqTerm(postings: seq<int>, payloads: Option<Bytes>)

  function PayloadOf(o: Occurrence): Bytes { if o.payload.Some? then o.payload.value else [] }

  function PosMult(fl: Flags): (n: nat)
    ensures 1 <= n <= 4
  {
    (if fl.hasOffsets then 3 else 1) + (if fl.hasPayloads then 1 else 0)
  }

  function OccurrenceInts(o: Occurrence, fl: Flags): (r: seq<int>)
    ensures |r| == PosMult(fl)
  {
    [o.position]
    + (if fl.hasOffsets then [o.startOffset, o.endOffset] else [])
    + (if fl.hasPayloads then [|PayloadOf(o)|] else [])
  }

  /** How many integers n positions take. */
  function Span(fl: Flags, n: nat): nat {
    if n == 0 then 0 else Span(fl, n - 1) + PosMult(fl)
  }

  lemma {:induction false} SpanIsProduct(fl: Flags, n: nat)
    ensures Span(fl, n) == PosMult(fl) * n
  {
    if n > 0 { SpanIsProduct(fl, n - 1); }
  }

  function OccurrencesInts(os: seq<Occurrence>, fl: Flags): (r: seq<int>)
    ensures |r| == Span(fl, |os|)
  {
    if os == [] then []
    else OccurrencesInts(os[..|os| - 1], fl) + OccurrenceInts(os[|os| - 1], fl)
  }

  function PostingInts(p: Posting, fl: Flags): (r: seq<int>)
    ensures |r| == EntryLength(p, fl)
  {
    [p.doc] + (if fl.hasFreq then [p.freq] else [])
    + (if fl.hasPos then OccurrencesInts(p.occurrences, fl) else [])
  }

  function Stream(ps: seq<Posting>, fl: Flags): seq<int> {
    if ps == [] then [] else Stream(ps[..|ps| - 1], fl) + PostingInts(ps[|ps| - 1], fl)
  }

  function OccurrencesBytes(os: seq<Occurrence>): Bytes {
    if os == [] then [] else OccurrencesBytes(os[..|os| - 1]) + PayloadOf(os[|os| - 1])
  }

  function PostingBytes(p: Posting, fl: Flags): Bytes {
    if fl.hasPos && fl.hasPayloads then OccurrencesBytes(p.occurrences) else []
  }

  function PayloadStream(ps: seq<Posting>, fl: Flags): Bytes {
    if ps == [] then [] else PayloadStream(ps[..|ps| - 1], fl) + PostingBytes(ps[|ps| - 1], fl)
  }

  // ----- writing

  lemma TakeLast<T>(s: seq<T>, i: nat)
    requires i < |s|
    ensures s[..i + 1][..i] == s[..i] && s[..i + 1][i] == s[i] && |s[..i + 1]| == i + 1
  {
  }

  lemma AppendBoth<T>(a: seq<T>, b: seq<T>, c: seq<T>)
    ensures (a + b) + c == a + (b + c)
  {
  }

  method EncodeOccurrence(o: Occurrence, fl: Flags, scratch0: seq<int>, output0: Bytes)
    returns (scratch: seq<int>, output: Bytes)
    ensures scratch == scratch0 + OccurrenceInts(o, fl)
    ensures output == output0 + if fl.hasPayloads then PayloadOf(o) else []
  {
    scratch, output := scratch0 + [o.position], output0;
    if fl.hasOffsets {
      scratch := scratch + [o.startOffset];
      scratch := scratch + [o.endOffset];
    }
    if fl.hasPayloads {
      if o.payload.Some? {
        scratch := scratch + [|o.payload.value|];
        output := output + o.payload.value;
      } else {
        scratch := scratch + [0];
      }
    }
  }

  method EncodeOccurrences(os: seq<Occurrence>, fl: Flags, scratch0: seq<int>, output0: Bytes)
    returns (scratch: seq<int>, output: Bytes)
    ensures scratch == scratch0 + OccurrencesInts(os, fl)
    ensures output == output0 + if fl.hasPayloads then OccurrencesBytes(os) else []
  {
    scratch, output := scratch0, output0;
    for k := 0 to |os|
      invariant scratch == scratch0 + OccurrencesInts(os[..k], fl)
      invariant output == output0 + if fl.hasPayloads then OccurrencesBytes(os[..k]) else []
    {
      TakeLast(os, k);
      AppendBoth(scratch0, OccurrencesInts(os[..k], fl), OccurrenceInts(os[k], fl));
      AppendBoth(output0, OccurrencesBytes(os[..k]), PayloadOf(os[k]));
      scratch, output := EncodeOccurrence(os[k], fl, scratch, output);
    }
    assert os[..|os|] == os;
  }

  method EncodePosting(p: Posting, fl: Flags, scratch0: seq<int>, output0: Bytes)
    returns (scratch: seq<int>, output: Bytes)
    requires fl.Ordered()
    ensures scratch == scratch0 + PostingInts(p, fl) && output == output0 + PostingBytes(p, fl)
  {
    scratch, output := scratch0 + [p.doc], output0;
    if fl.hasFreq {
      scratch := scratch + [p.freq];
      if fl.hasPos {
        scratch, output := EncodeOccurrences(p.occurrences, fl, scratch, output);
      }
    }
  }

  /** Writes the postings of a term in order. */
  method Encode(ps: seq<Posting>, fl: Flags) returns (term: LowFreqTerm)
    requires fl.Ordered()
    ensures term.postings == Stream(ps, fl)
    ensures term.payloads == if fl.hasPayloads then Some(PayloadStream(ps, fl)) else None
  {
    var scratch, output := [], [];
    for k := 0 to |ps|
      invariant scratch == Stream(ps[..k], fl) && output == PayloadStream(ps[..k], fl)
    {
      TakeLast(ps, k);
      scratch, output := EncodePosting(ps[k], fl, scratch, output);
    }
    assert ps[..|ps|] == ps;
    term := LowFreqTerm(scratch, if fl.hasPayloads then Some(output) else None);
  }

  // ----- where things are in the stream

  function EntryLength(p: Posting, fl: Flags): nat {
    1 + (if fl.hasFreq then 1 else 0) + (if fl.hasPos then Span(fl, |p.occurrences|) else 0)
  }

  /** Where the entry of document i starts. */
  function DocStart(ps: seq<Posting>, fl: Flags, i: nat): nat
    requires i <= |ps|
  {
    if i == 0 then 0 else DocStart(ps, fl, i - 1) + EntryLength(ps[i - 1], fl)
  }

  /** Where position j of document i starts. */
  function PosStart(ps: seq<Posting>, fl: Flags, i: nat, j: nat): nat
    requires i <= |ps|
  {
    DocStart(ps, fl, i) + 2 + Span(fl, j)
  }

  /** How many bytes the first j payloads take. */
  function BytesBefore(os: seq<Occurrence>, j: nat): nat
    requires j <= |os|
  {
    if j == 0 then 0 else BytesBefore(os, j - 1) + |PayloadOf(os[j - 1])|
  }

  /** Where the payloads of document i start. */
  function DocBytesStart(ps: seq<Posting>, fl: Flags, i: nat): nat
    requires i <= |ps|
  {
    if i == 0 then 0
    else DocBytesStart(ps, fl, i - 1)
         + if fl.hasPos && fl.hasPayloads then BytesBefore(ps[i - 1].occurrences, |ps[i - 1].occurrences|) else 0
  }

  /** Where the payload of position j of document i starts. */
  function PayloadStart(ps: seq<Posting>, fl: Flags, i: nat, j: nat): nat
    requires i < |ps| && j <= |ps[i].occurrences|
  {
    DocBytesStart(ps, fl, i) + BytesBefore(ps[i].occurrences, j)
  }

  lemma {:induction false} DocStartIs(ps: seq<Posting>, fl: Flags, i: nat)
    requires i <= |ps|
    ensures |Stream(ps[..i], fl)| == DocStart(ps, fl, i)
  {
    if i > 0 {
      DocStartIs(ps, fl, i - 1);
      TakeLast(ps, i - 1);
    }
  }

  lemma {:induction false} BytesBeforeIs(os: seq<Occurrence>, j: nat)
    requires j <= |os|
    ensures |OccurrencesBytes(os[..j])| == BytesBefore(os, j)
  {
    if j > 0 {
      BytesBeforeIs(os, j - 1);
      TakeLast(os, j - 1);
    }
  }

  lemma {:induction false} DocBytesStartIs(ps: seq<Posting>, fl: Flags, i: nat)
    requires i <= |ps|
    ensures |PayloadStream(ps[..i], fl)| == DocBytesStart(ps, fl, i)
  {
    if i > 0 {
      DocBytesStartIs(ps, fl, i - 1);
      TakeLast(ps, i - 1);
      var os := ps[i - 1].occurrences;
      BytesBeforeIs(os, |os|);
      assert os[..|os|] == os;
    }
  }

  lemma {:induction false} StreamPrefix(ps: seq<Posting>, fl: Flags, i: nat)
    requires i <= |ps|
    ensures Stream(ps[..i], fl) <= Stream(ps, fl)
    ensures PayloadStream(ps[..i], fl) <= PayloadStream(ps, fl)
    decreases |ps|
  {
    if i == |ps| {
      assert ps[..i] == ps;
    } else {
      StreamPrefix(ps[..|ps| - 1], fl, i);
      assert ps[..|ps| - 1][..i] == ps[..i];
    }
  }

  lemma {:induction false} OccurrencesPrefix(os: seq<Occurrence>, fl: Flags, j: nat)
    requires j <= |os|
    ensures OccurrencesInts(os[..j], fl) <= OccurrencesInts(os, fl)
    ensures OccurrencesBytes(os[..j]) <= OccurrencesBytes(os)
    decreases |os|
  {
    if j == |os| {
      assert os[..j] == os;
    } else {
      OccurrencesPrefix(os[..|os| - 1], fl, j);
      assert os[..|os| - 1][..j] == os[..j];
    }
  }

  /** The entry of document i stands where the cursor looks for it. */
  lemma DocEntry(ps: seq<Posting>, fl: Flags, i: nat)
    requires i < |ps|
    ensures DocStart(ps, fl, i + 1) <= |Stream(ps, fl)|
    ensures Stream(ps, fl)[DocStart(ps, fl, i)..DocStart(ps, fl, i + 1)] == PostingInts(ps[i], fl)
  {
    StreamPrefix(ps, fl, i + 1);
    TakeLast(ps, i);
    DocStartIs(ps, fl, i);
    DocStartIs(ps, fl, i + 1);
    var s := Stream(ps[..i + 1], fl);
    assert s == Stream(ps[..i], fl) + PostingInts(ps[i], fl);
    assert Stream(ps, fl)[..|s|] == s;
  }

  /** A slice of a slice, element by element. */
  lemma SliceAt<T>(s: seq<T>, lo: nat, hi: nat, part: seq<T>, k: nat)
    requires lo <= hi <= |s| && s[lo..hi] == part && k < |part|
    ensures s[lo + k] == part[k]
  {
    assert s[lo..hi][k] == s[lo + k];
  }

  lemma SliceWithin<T>(s: seq<T>, lo: nat, hi: nat, part: seq<T>, from: nat, to: nat)
    requires lo <= hi <= |s| && s[lo..hi] == part && from <= to <= |part|
    ensures s[lo + from..lo + to] == part[from..to]
  {
    forall k | 0 <= k < to - from ensures s[lo + from..lo + to][k] == part[from..to][k] {
      assert s[lo..hi][from + k] == s[lo + (from + k)];
    }
  }

  predicate StandsAt(s: seq<int>, at: nat, part: seq<int>) {
    at + |part| <= |s| && s[at..at + |part|] == part
  }

  lemma SliceCompose(s: seq<int>, lo: nat, hi: nat, part: seq<int>, from: nat, to: nat, x: seq<int>, at: nat)
    requires lo <= hi <= |s| && s[lo..hi] == part && from <= to <= |part| && part[from..to] == x
    requires at == lo + from
    ensures StandsAt(s, at, x)
  {
    SliceWithin(s, lo, hi, part, from, to);
  }

  /** A position within an entry stands two integers further than among the positions. */
  lemma {:induction false} WithinEntry(p: Posting, fl: Flags, from: nat, to: nat, z: seq<int>)
    requires fl.Ordered() && fl.hasPos && from <= to <= |OccurrencesInts(p.occurrences, fl)|
    requires OccurrencesInts(p.occurrences, fl)[from..to] == z
    ensures 2 + to <= |PostingInts(p, fl)| && PostingInts(p, fl)[2 + from..2 + to] == z
  {
    var ints := OccurrencesInts(p.occurrences, fl);
    assert PostingInts(p, fl) == [p.doc, p.freq] + ints;
    assert ([p.doc, p.freq] + ints)[2 + from..2 + to] == ints[from..to];
  }

  lemma OccurrenceWithin(os: seq<Occurrence>, fl: Flags, j: nat)
    requires j < |os|
    ensures Span(fl, j + 1) == Span(fl, j) + PosMult(fl) <= |OccurrencesInts(os, fl)|
    ensures OccurrencesInts(os, fl)[Span(fl, j)..Span(fl, j + 1)] == OccurrenceInts(os[j], fl)
  {
    OccurrencesPrefix(os, fl, j + 1);
    TakeLast(os, j);
    var head, upTo := OccurrencesInts(os[..j], fl), OccurrencesInts(os[..j + 1], fl);
    assert upTo == head + OccurrenceInts(os[j], fl);
    assert OccurrencesInts(os, fl)[..|upTo|] == upTo;
    SliceWithin(OccurrencesInts(os, fl), 0, |upTo|, upTo, |head|, |upTo|);
  }

  /** Position j stands within the entry of its document. */
  lemma PosWithinEntry(p: Posting, fl: Flags, j: nat)
    requires fl.Ordered() && fl.hasPos && j < |p.occurrences|
    ensures Span(fl, j + 1) == Span(fl, j) + PosMult(fl)
    ensures StandsAt(PostingInts(p, fl), 2 + Span(fl, j), OccurrenceInts(p.occurrences[j], fl))
  {
    OccurrenceWithin(p.occurrences, fl, j);
    WithinEntry(p, fl, Span(fl, j), Span(fl, j + 1), OccurrenceInts(p.occurrences[j], fl));
  }

  lemma StandsWithin(s: seq<int>, lo: nat, hi: nat, part: seq<int>, from: nat, x: seq<int>, at: nat)
    requires lo <= hi <= |s| && s[lo..hi] == part && StandsAt(part, from, x) && at == lo + from
    ensures StandsAt(s, at, x)
  {
    SliceCompose(s, lo, hi, part, from, from + |x|, x, at);
  }

  /** Position j of document i stands where the cursor looks for it. */
  lemma {:induction false} PosEntry(ps: seq<Posting>, fl: Flags, i: nat, j: nat)
    requires i < |ps| && fl.Ordered() && fl.hasPos && j < |ps[i].occurrences|
    ensures PosStart(ps, fl, i, j + 1) == PosStart(ps, fl, i, j) + PosMult(fl)
    ensures StandsAt(Stream(ps, fl), PosStart(ps, fl, i, j), OccurrenceInts(ps[i].occurrences[j], fl))
  {
    DocEntry(ps, fl, i);
    PosWithinEntry(ps[i], fl, j);
    StandsWithin(Stream(ps, fl), DocStart(ps, fl, i), DocStart(ps, fl, i + 1), PostingInts(ps[i], fl),
                 2 + Span(fl, j), OccurrenceInts(ps[i].occurrences[j], fl), PosStart(ps, fl, i, j));
  }

  /** The integers of one position, one by one. */
  lemma PosInts(s: seq<int>, at: nat, o: Occurrence, fl: Flags)
    requires StandsAt(s, at, OccurrenceInts(o, fl))
    ensures at + PosMult(fl) <= |s| && s[at] == o.position
    ensures fl.hasOffsets ==> s[at + 1] == o.startOffset && s[at + 2] == o.endOffset
    ensures fl.hasPayloads ==> s[at + PosMult(fl) - 1] == |PayloadOf(o)|
  {
    var part := OccurrenceInts(o, fl);
    forall k: nat | k < |part| ensures s[at + k] == part[k] {
      SliceAt(s, at, at + |part|, part, k);
    }
  }

  lemma BytesWithin(os: seq<Occurrence>, fl: Flags, j: nat)
    requires j < |os|
    ensures var lo, hi := |OccurrencesBytes(os[..j])|, |OccurrencesBytes(os[..j + 1])|;
            hi == lo + |PayloadOf(os[j])| <= |OccurrencesBytes(os)|
            && OccurrencesBytes(os)[lo..hi] == PayloadOf(os[j])
  {
    OccurrencesPrefix(os, fl, j + 1);
    TakeLast(os, j);
    var head, upTo := OccurrencesBytes(os[..j]), OccurrencesBytes(os[..j + 1]);
    assert upTo == head + PayloadOf(os[j]);
    assert OccurrencesBytes(os)[..|upTo|] == upTo;
    SliceWithin(OccurrencesBytes(os), 0, |upTo|, upTo, |head|, |upTo|);
  }

  lemma DocBytes(ps: seq<Posting>, fl: Flags, i: nat)
    requires i < |ps|
    ensures DocBytesStart(ps, fl, i + 1) <= |PayloadStream(ps, fl)|
    ensures PayloadStream(ps, fl)[DocBytesStart(ps, fl, i)..DocBytesStart(ps, fl, i + 1)] == PostingBytes(ps[i], fl)
  {
    StreamPrefix(ps, fl, i + 1);
    TakeLast(ps, i);
    DocBytesStartIs(ps, fl, i);
    DocBytesStartIs(ps, fl, i + 1);
    var s := PayloadStream(ps[..i + 1], fl);
    assert s == PayloadStream(ps[..i], fl) + PostingBytes(ps[i], fl);
    assert PayloadStream(ps, fl)[..|s|] == s;
  }

  // ----- what a cursor finds

  ghost predicate Stores(term: LowFreqTerm, ps: seq<Posting>, fl: Flags) {
    && term.postings == Stream(ps, fl)
    && term.payloads == if fl.hasPayloads then Some(PayloadStream(ps, fl)) else None
  }

  /** The document and frequency of entry i; past the last entry the stream ends. */
  lemma ReadsDoc(term: LowFreqTerm, ps: seq<Posting>, fl: Flags, i: nat)
    requires Stores(term, ps, fl) && i <= |ps|
    ensures DocStart(ps, fl, i) < |term.postings| <==> i < |ps|
    ensures i < |ps| ==> term.postings[DocStart(ps, fl, i)] == ps[i].doc
    ensures i < |ps| && fl.hasFreq ==>
              DocStart(ps, fl, i) + 1 < |term.postings| && term.postings[DocStart(ps, fl, i) + 1] == ps[i].freq
  {
    if i < |ps| {
      DocEntry(ps, fl, i);
      var lo, hi := DocStart(ps, fl, i), DocStart(ps, fl, i + 1);
      SliceAt(Stream(ps, fl), lo, hi, PostingInts(ps[i], fl), 0);
      if fl.hasFreq { SliceAt(Stream(ps, fl), lo, hi, PostingInts(ps[i], fl), 1); }
    } else {
      DocStartIs(ps, fl, i);
      assert ps[..i] == ps;
    }
  }

  /** The integers of position j of document i. */
  lemma ReadsPosition(term: LowFreqTerm, ps: seq<Posting>, fl: Flags, i: nat, j: nat)
    requires Stores(term, ps, fl) && i < |ps| && fl.Ordered() && fl.hasPos && j < |ps[i].occurrences|
    ensures var at, o := PosStart(ps, fl, i, j), ps[i].occurrences[j];
            && PosStart(ps, fl, i, j + 1) == at + PosMult(fl) <= |term.postings|
            && term.postings[at] == o.position
            && (fl.hasOffsets ==> term.postings[at + 1] == o.startOffset && term.postings[at + 2] == o.endOffset)
            && (fl.hasPayloads ==> term.postings[at + PosMult(fl) - 1] == |PayloadOf(o)|)
  {
    PosEntry(ps, fl, i, j);
    PosInts(term.postings, PosStart(ps, fl, i, j), ps[i].occurrences[j], fl);
  }

  /** The payload of position j of document i. */
  lemma ReadsPayload(term: LowFreqTerm, ps: seq<Posting>, fl: Flags, i: nat, j: nat)
    requires Stores(term, ps, fl) && i < |ps| && fl.hasPos && fl.hasPayloads && j < |ps[i].occurrences|
    ensures PayloadStart(ps, fl, i, j + 1) == PayloadStart(ps, fl, i, j) + |PayloadOf(ps[i].occurrences[j])|
    ensures StandsAt(term.payloads.value, PayloadStart(ps, fl, i, j), PayloadOf(ps[i].occurrences[j]))
  {
    var os := ps[i].occurrences;
    DocBytes(ps, fl, i);
    BytesWithin(os, fl, j);
    BytesBeforeIs(os, j);
    BytesBeforeIs(os, j + 1);
    SliceCompose(PayloadStream(ps, fl), DocBytesStart(ps, fl, i), DocBytesStart(ps, fl, i + 1), OccurrencesBytes(os),
                 BytesBefore(os, j), BytesBefore(os, j + 1), PayloadOf(os[j]), PayloadStart(ps, fl, i, j));
  }

  // ----- what a cursor may rely on

  /** What ReadsDoc gives. */
  ghost predicate DocReads(term: LowFreqTerm, ps: seq<Posting>, fl: Flags, i: nat)
    requires i <= |ps|
  {
    var at := DocStart(ps, fl, i);
    && (at < |term.postings| <==> i < |ps|)
    && (i < |ps| ==> term.postings[at] == ps[i].doc)
    && (i < |ps| && fl.hasFreq ==> at + 1 < |term.postings| && term.postings[at + 1] == ps[i].freq)
  }

  /** What ReadsPosition gives. */
  ghost predicate PositionReads(term: LowFreqTerm, ps: seq<Posting>, fl: Flags, i: nat, j: nat)
    requires i < |ps| && j < |ps[i].occurrences|
  {
    var at, o := PosStart(ps, fl, i, j), ps[i].occurrences[j];
    && PosStart(ps, fl, i, j + 1) == at + PosMult(fl) <= |term.postings|
    && term.postings[at] == o.position
    && (fl.hasOffsets ==> term.postings[at + 1] == o.startOffset && term.postings[at + 2] == o.endOffset)
    && (fl.hasPayloads ==> term.postings[at + PosMult(fl) - 1] == |PayloadOf(o)|)
  }

  /** What ReadsPayload gives. */
  ghost predicate PayloadReads(term: LowFreqTerm, ps: seq<Posting>, fl: Flags, i: nat, j: nat)
    requires i < |ps| && j < |ps[i].occurrences|
  {
    var at, payload := PayloadStart(ps, fl, i, j), PayloadOf(ps[i].occurrences[j]);
    && PayloadStart(ps, fl, i, j + 1) == at + |payload|
    && term.payloads.Some? && StandsAt(term.payloads.value, at, payload)
  }

  /** Every part of the postings can be read where it starts. */
  ghost predicate Readable(term: LowFreqTerm, ps: seq<Posting>, fl: Flags) {
    && (forall i: nat :: i <= |ps| ==> DocReads(term, ps, fl, i))
    && (fl.hasPos ==> forall i: nat, j: nat :: i < |ps| && j < |ps[i].occurrences| ==> PositionReads(term, ps, fl, i, j))
    && (fl.hasPos && fl.hasPayloads ==>
          forall i: nat, j: nat :: i < |ps| && j < |ps[i].occurrences| ==> PayloadReads(term, ps, fl, i, j))
  }

  lemma StoresReadable(term: LowFreqTerm, ps: seq<Posting>, fl: Flags)
    requires Stores(term, ps, fl) && fl.Ordered()
    ensures Readable(term, ps, fl)
  {
    forall i: nat | i <= |ps| ensures DocReads(term, ps, fl, i) { ReadsDoc(term, ps, fl, i); }
    if fl.hasPos {
      forall i: nat, j: nat | i < |ps| && j < |ps[i].occurrences| ensures PositionReads(term, ps, fl, i, j) {
        ReadsPosition(term, ps, fl, i, j);
      }
      if fl.hasPayloads {
        forall i: nat, j: nat | i < |ps| && j < |ps[i].occurrences| ensures PayloadReads(term, ps, fl, i, j) {
          ReadsPayload(term, ps, fl, i, j);
        }
      }
    }
  }

  /** The offsets of position j of document i, after the position itself. */
  lemma ReadsOffsets(term: LowFreqTerm, ps: seq<Posting>, fl: Flags, i: nat, j: nat, at: nat)
    requires Readable(term, ps, fl) && i < |ps| && fl.hasPos && fl.hasOffsets && j < |ps[i].occurrences|
    requires at == PosStart(ps, fl, i, j) + 1
    ensures at + 1 < |term.postings|
    ensures term.postings[at] == ps[i].occurrences[j].startOffset && term.postings[at + 1] == ps[i].occurrences[j].endOffset
  {
    assert PositionReads(term, ps, fl, i, j);
  }

  /** The payload length of position j of document i, the last of its integers. */
  lemma ReadsLength(term: LowFreqTerm, ps: seq<Posting>, fl: Flags, i: nat, j: nat, at: nat)
    requires Readable(term, ps, fl) && i < |ps| && fl.hasPos && fl.hasPayloads && j < |ps[i].occurrences|
    requires at == PosStart(ps, fl, i, j) + PosMult(fl) - 1
    ensures at < |term.postings| && term.postings[at] == |PayloadOf(ps[i].occurrences[j])|
    ensures PosStart(ps, fl, i, j + 1) == at + 1
  {
    assert PositionReads(term, ps, fl, i, j);
  }
}
