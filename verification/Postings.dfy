/** The postings of one term, what a caller may observe of them, and the two layouts
    that store them. */
module Postings {
  import opened Options
  import opened Gallop

  const NO_MORE_DOCS: int := I32_MAX

  type Bytes = seq<int>

  datatype Occurrence = Occurrence(position: int, startOffset: int, endOffset: int, payload: Option<Bytes>)

  datatype Posting = Posting(doc: int, freq: int, occurrences: seq<Occurrence>)

  /** What the field indexes. */
  datatype Flags = Flags(hasFreq: bool, hasPos: bool, hasOffsets: bool, hasPayloads: bool) {
    predicate Ordered() { (hasPos ==> hasFreq) && (hasOffsets ==> hasPos) }
  }

  function Docs(ps: seq<Posting>): (ds: seq<int>)
    ensures |ds| == |ps|
    ensures forall i :: 0 <= i < |ps| ==> ds[i] == ps[i].doc
  {
    seq(|ps|, i requires 0 <= i < |ps| => ps[i].doc)
  }

  ghost predicate PostingAt(ps: seq<Posting>, fl: Flags, i: nat)
    requires i < |ps|
  {
    && 0 <= ps[i].doc < NO_MORE_DOCS
    && ps[i].freq > 0
    && (fl.hasPos ==> ps[i].freq == |ps[i].occurrences|)
  }

  ghost predicate PostingsOk(ps: seq<Posting>, fl: Flags) {
    && fl.Ordered()
    && Ascending(Docs(ps))
    && forall i: nat :: i < |ps| ==> PostingAt(ps, fl, i)
  }

  // ----- the reference cursor

  /** index -1 is before the first document, |ps| after the last; read positions of the
      current document have been consumed; payload is that of the last position read. */
  datatype Cursor = Cursor(index: int, read: nat, payload: Option<Bytes>)

  datatype Op = NextDoc | Advance(target: int) | Freq | NextPosition | StartOffset | EndOffset | Payload

  datatype Answer = Number(value: int) | Data(bytes: Option<Bytes>)

  const START: Cursor := Cursor(-1, 0, None)

  /** What of the postings the cursor shows: positions only if asked for and there. */
  datatype View = View(freqs: bool, positions: bool, offsets: bool, payloads: bool)

  function ViewOf(fl: Flags, positionsWanted: bool): View {
    var positions := positionsWanted && fl.hasPos;
    View(fl.hasFreq, positions, positions && fl.hasOffsets, positions && fl.hasPayloads)
  }

  function DocAt(ps: seq<Posting>, index: int): int {
    if index < 0 then -1 else if index < |ps| then ps[index].doc else NO_MORE_DOCS
  }

  /** What a caller may ask: the iterator contract. */
  predicate Legal(ps: seq<Posting>, v: View, c: Cursor, op: Op) {
    match op
    case NextDoc => c.index < |ps|
    case Advance(target) => c.index < |ps| && DocAt(ps, c.index) < target <= NO_MORE_DOCS
    case Freq => 0 <= c.index < |ps|
    case NextPosition => 0 <= c.index < |ps| && (v.positions ==> c.read < |ps[c.index].occurrences|)
    case StartOffset => 0 <= c.index < |ps| && (v.offsets ==> 0 < c.read)
    case EndOffset => 0 <= c.index < |ps| && (v.offsets ==> 0 < c.read)
    case Payload => true
  }

  ghost predicate CursorOk(ps: seq<Posting>, v: View, c: Cursor) {
    && -1 <= c.index <= |ps|
    && (v.positions && 0 <= c.index < |ps| ==> c.read <= |ps[c.index].occurrences|)
    && (!v.positions ==> c.read == 0)
    && (!v.payloads ==> c.payload == None)
  }

  function MoveTo(c: Cursor, index: int): Cursor { c.(index := index, read := 0) }

  function Target(ps: seq<Posting>, c: Cursor, op: Op): int
    requires -1 <= c.index < |ps| && (op.NextDoc? || op.Advance?)
  {
    if op.NextDoc? then c.index + 1 else FirstAtLeast(Docs(ps), c.index + 1, op.target)
  }

  /** The cursor after a legal call. */
  function After(ps: seq<Posting>, v: View, c: Cursor, op: Op): (d: Cursor)
    requires CursorOk(ps, v, c) && Legal(ps, v, c, op)
    ensures CursorOk(ps, v, d)
  {
    match op
    case NextDoc => MoveTo(c, Target(ps, c, op))
    case Advance(_) => MoveTo(c, Target(ps, c, op))
    case NextPosition =>
      if !v.positions then c
      else c.(read := c.read + 1, payload := if v.payloads then ps[c.index].occurrences[c.read].payload else None)
    case _ => c
  }

  /** The answer to a legal call. */
  function Reply(ps: seq<Posting>, v: View, c: Cursor, op: Op): Answer
    requires CursorOk(ps, v, c) && Legal(ps, v, c, op)
  {
    match op
    case NextDoc => Number(DocAt(ps, Target(ps, c, op)))
    case Advance(_) => Number(DocAt(ps, Target(ps, c, op)))
    case Freq => Number(if v.freqs then ps[c.index].freq else 1)
    case NextPosition => Number(if v.positions then ps[c.index].occurrences[c.read].position else -1)
    case StartOffset => Number(if v.offsets then ps[c.index].occurrences[c.read - 1].startOffset else -1)
    case EndOffset => Number(if v.offsets then ps[c.index].occurrences[c.read - 1].endOffset else -1)
    case Payload => Data(c.payload)
  }

  ghost predicate LegalRun(ps: seq<Posting>, v: View, c: Cursor, ops: seq<Op>)
    requires CursorOk(ps, v, c)
    decreases |ops|
  {
    ops == [] || (Legal(ps, v, c, ops[0]) && LegalRun(ps, v, After(ps, v, c, ops[0]), ops[1..]))
  }

  ghost function Replies(ps: seq<Posting>, v: View, c: Cursor, ops: seq<Op>): (answers: seq<Answer>)
    requires CursorOk(ps, v, c) && LegalRun(ps, v, c, ops)
    ensures |answers| == |ops|
    decreases |ops|
  {
    if ops == [] then []
    else [Reply(ps, v, c, ops[0])] + Replies(ps, v, After(ps, v, c, ops[0]), ops[1..])
  }

  // ----- where galloping fails

  /** A call makes the galloping search compute an index that is no 32-bit integer. */
  ghost predicate Overflows(ps: seq<Posting>, c: Cursor, op: Op) {
    op.Advance? && -1 <= c.index && c.index + 1 < |ps| && ProbeOverflows(Docs(ps), c.index + 1, op.target)
  }

  ghost predicate RunOverflows(ps: seq<Posting>, v: View, c: Cursor, ops: seq<Op>)
    requires CursorOk(ps, v, c) && LegalRun(ps, v, c, ops)
    decreases |ops|
  {
    ops != [] && (Overflows(ps, c, ops[0]) || RunOverflows(ps, v, After(ps, v, c, ops[0]), ops[1..]))
  }

  /** No run over at most 2^30 - 5 documents does. */
  lemma {:induction false} ShortRunsAreSafe(ps: seq<Posting>, v: View, c: Cursor, ops: seq<Op>)
    requires CursorOk(ps, v, c) && LegalRun(ps, v, c, ops) && |ps| <= 0x4000_0000 - 5
    ensures !RunOverflows(ps, v, c, ops)
    decreases |ops|
  {
    if ops != [] {
      if ops[0].Advance? && c.index + 1 < |ps| { ShortListsAreSafe(Docs(ps), c.index + 1, ops[0].target); }
      ShortRunsAreSafe(ps, v, After(ps, v, c, ops[0]), ops[1..]);
    }
  }

  /** Distinct documents below the last 32-bit integer are not too many to index. */
  lemma DocsFit(ps: seq<Posting>, fl: Flags)
    requires PostingsOk(ps, fl)
    ensures |ps| <= I32_MAX
  {
    if ps != [] {
      var n := |ps| - 1;
      DocAtLeastIndex(ps, fl, n);
      assert PostingAt(ps, fl, n);
    }
  }

  lemma {:induction false} DocAtLeastIndex(ps: seq<Posting>, fl: Flags, i: nat)
    requires PostingsOk(ps, fl) && i < |ps|
    ensures ps[i].doc >= i
  {
    if i > 0 {
      DocAtLeastIndex(ps, fl, i - 1);
      assert Docs(ps)[i - 1] < Docs(ps)[i];
    } else {
      assert PostingAt(ps, fl, 0);
    }
  }
}
