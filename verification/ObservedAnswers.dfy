/** What the answers to a run of calls are, said from the postings, the calls and the
    earlier answers alone. */
module ObservedAnswers {
  import opened Options
  import opened Gallop
  import opened Postings

  predicate Moves(op: Op) { op.NextDoc? || op.Advance? }

  /** The document the last move before call k led to, -1 before the first. */
  ghost function LastDoc(ops: seq<Op>, answers: seq<Answer>, k: nat): int
    requires k <= |ops| == |answers|
  {
    if k == 0 then -1
    else if Moves(ops[k - 1]) then (if answers[k - 1].Number? then answers[k - 1].value else -1)
    else LastDoc(ops, answers, k - 1)
  }

  /** How many positions were asked for between the last move and call k. */
  ghost function ReadSince(ops: seq<Op>, k: nat): nat
    requires k <= |ops|
  {
    if k == 0 || Moves(ops[k - 1]) then 0
    else ReadSince(ops, k - 1) + if ops[k - 1].NextPosition? then 1 else 0
  }

  /** The last call before k that asked for a position, -1 if there is none. */
  ghost function LastRead(ops: seq<Op>, k: nat): (j: int)
    requires k <= |ops|
    ensures -1 <= j < k
  {
    if k == 0 then -1 else if ops[k - 1].NextPosition? then k - 1 else LastRead(ops, k - 1)
  }

  /** Posting i is the one of the document the last move before call k led to. */
  ghost predicate Current(ps: seq<Posting>, ops: seq<Op>, answers: seq<Answer>, k: nat, i: nat)
    requires k <= |ops| == |answers|
  {
    i < |ps| && ps[i].doc == LastDoc(ops, answers, k)
  }

  /** d is the first document not below from, or the end if there is none. */
  ghost predicate FirstFrom(ps: seq<Posting>, from: int, d: int) {
    if d == NO_MORE_DOCS then forall i: nat :: i < |ps| ==> ps[i].doc < from
    else d >= from && (exists i: nat :: i < |ps| && ps[i].doc == d)
         && forall i: nat :: i < |ps| && ps[i].doc < d ==> ps[i].doc < from
  }

  /** Call k is answered right: a move by the first document that is left, at or after the
      target; other questions by the posting of the document moved to, by its occurrence
      read last or to be read next, or by a constant where the field or the caller leaves
      them out. A low-frequency term shows an empty payload as none. */
  ghost predicate AnsweredAt(ps: seq<Posting>, fl: Flags, wanted: bool, low: bool, ops: seq<Op>, answers: seq<Answer>, k: nat)
    requires k < |ops| == |answers|
  {
    var a := answers[k];
    match ops[k]
    case NextDoc => a.Number? && FirstFrom(ps, LastDoc(ops, answers, k) + 1, a.value)
    case Advance(target) => a.Number? && FirstFrom(ps, target, a.value)
    case Freq =>
      if fl.hasFreq then exists i: nat :: Current(ps, ops, answers, k, i) && a == Number(ps[i].freq) else a == Number(1)
    case NextPosition =>
      if wanted && fl.hasPos then
        exists i: nat :: Current(ps, ops, answers, k, i) && ReadSince(ops, k) < |ps[i].occurrences|
                         && a == Number(ps[i].occurrences[ReadSince(ops, k)].position)
      else a == Number(-1)
    case StartOffset =>
      if wanted && fl.hasOffsets then
        exists i: nat :: Current(ps, ops, answers, k, i) && 0 < ReadSince(ops, k) <= |ps[i].occurrences|
                         && a == Number(ps[i].occurrences[ReadSince(ops, k) - 1].startOffset)
      else a == Number(-1)
    case EndOffset =>
      if wanted && fl.hasOffsets then
        exists i: nat :: Current(ps, ops, answers, k, i) && 0 < ReadSince(ops, k) <= |ps[i].occurrences|
                         && a == Number(ps[i].occurrences[ReadSince(ops, k) - 1].endOffset)
      else a == Number(-1)
    case Payload =>
      var j := LastRead(ops, k);
      if wanted && fl.hasPos && fl.hasPayloads && j >= 0 then
        exists i: nat :: Current(ps, ops, answers, j, i) && ReadSince(ops, j) < |ps[i].occurrences|
                         && Shows(a, ps[i].occurrences[ReadSince(ops, j)].payload, low)
      else a == Data(None)
  }

  ghost predicate Shows(a: Answer, payload: Option<Bytes>, low: bool) {
    a == Data(if low && payload == Some([]) then None else payload)
  }

  ghost predicate Answered(ps: seq<Posting>, fl: Flags, wanted: bool, low: bool, ops: seq<Op>, answers: seq<Answer>) {
    |answers| == |ops| && forall k: nat :: k < |ops| ==> AnsweredAt(ps, fl, wanted, low, ops, answers, k)
  }

  // ----- the reference cursor answers so

  /** What a low-frequency term shows of an answer. */
  function Shown(a: Answer, low: bool): Answer { if low && a == Data(Some([])) then Data(None) else a }

  /** The payload of the position read last. */
  ghost predicate PayloadIs(ps: seq<Posting>, v: View, ops: seq<Op>, answers: seq<Answer>, k: nat, payload: Option<Bytes>)
    requires k <= |ops| == |answers|
  {
    var j := LastRead(ops, k);
    if v.payloads && j >= 0 then
      exists i: nat :: Current(ps, ops, answers, j, i) && ReadSince(ops, j) < |ps[i].occurrences|
                       && payload == ps[i].occurrences[ReadSince(ops, j)].payload
    else payload == None
  }

  /** The calls and answers before k have led to cursor c. */
  ghost predicate LedTo(ps: seq<Posting>, v: View, ops: seq<Op>, answers: seq<Answer>, k: nat, c: Cursor) {
    && k <= |ops| == |answers| && CursorOk(ps, v, c)
    && LastDoc(ops, answers, k) == DocAt(ps, c.index)
    && (v.positions ==> ReadSince(ops, k) == c.read)
    && PayloadIs(ps, v, ops, answers, k, c.payload)
  }

  lemma IsCurrent(ps: seq<Posting>, v: View, ops: seq<Op>, answers: seq<Answer>, k: nat, c: Cursor)
    requires LedTo(ps, v, ops, answers, k, c) && 0 <= c.index < |ps|
    ensures Current(ps, ops, answers, k, c.index)
  {
  }

  lemma NextIsFirst(ps: seq<Posting>, fl: Flags, index: int)
    requires PostingsOk(ps, fl) && -1 <= index < |ps|
    ensures FirstFrom(ps, DocAt(ps, index) + 1, DocAt(ps, index + 1))
  {
    forall i: nat | i < |ps| ensures PostingAt(ps, fl, i) && (i < index ==> ps[i].doc < ps[index].doc) && (index + 1 < i ==> ps[index + 1].doc < ps[i].doc) {
      assert i < index ==> Docs(ps)[i] < Docs(ps)[index];
      assert index + 1 < i ==> Docs(ps)[index + 1] < Docs(ps)[i];
    }
  }

  lemma TargetIsFirst(ps: seq<Posting>, fl: Flags, index: int, target: int)
    requires PostingsOk(ps, fl) && -1 <= index < |ps| && DocAt(ps, index) < target
    ensures FirstFrom(ps, target, DocAt(ps, FirstAtLeast(Docs(ps), index + 1, target)))
  {
    var t := FirstAtLeast(Docs(ps), index + 1, target);
    forall i: nat | i < |ps| ensures PostingAt(ps, fl, i) && (i < t ==> ps[i].doc < target) && (t < i ==> ps[t].doc < ps[i].doc) {
      assert i < index ==> Docs(ps)[i] < Docs(ps)[index];
      assert t < i ==> Docs(ps)[t] < Docs(ps)[i];
      assert index < i < t ==> Docs(ps)[i] < target;
    }
    assert t < |ps| ==> Docs(ps)[t] >= target;
  }

  lemma NextAnswered(ps: seq<Posting>, fl: Flags, wanted: bool, low: bool, ops: seq<Op>, answers: seq<Answer>, k: nat, c: Cursor)
    requires PostingsOk(ps, fl) && k < |ops| && ops[k].NextDoc?
    requires LedTo(ps, ViewOf(fl, wanted), ops, answers, k, c) && c.index < |ps| && answers[k] == Number(DocAt(ps, c.index + 1))
    ensures AnsweredAt(ps, fl, wanted, low, ops, answers, k)
  {
    NextIsFirst(ps, fl, c.index);
  }

  lemma AdvanceAnswered(ps: seq<Posting>, fl: Flags, wanted: bool, low: bool, ops: seq<Op>, answers: seq<Answer>, k: nat, c: Cursor)
    requires PostingsOk(ps, fl) && k < |ops| && ops[k].Advance? && -1 <= c.index < |ps| && DocAt(ps, c.index) < ops[k].target
    requires |ops| == |answers| && answers[k] == Number(DocAt(ps, FirstAtLeast(Docs(ps), c.index + 1, ops[k].target)))
    ensures AnsweredAt(ps, fl, wanted, low, ops, answers, k)
  {
    TargetIsFirst(ps, fl, c.index, ops[k].target);
  }

  lemma MoveAnswered(ps: seq<Posting>, fl: Flags, wanted: bool, low: bool, ops: seq<Op>, answers: seq<Answer>, k: nat, c: Cursor)
    requires PostingsOk(ps, fl) && k < |ops| && Moves(ops[k])
    requires LedTo(ps, ViewOf(fl, wanted), ops, answers, k, c) && Legal(ps, ViewOf(fl, wanted), c, ops[k])
    requires answers[k] == Shown(Reply(ps, ViewOf(fl, wanted), c, ops[k]), low)
    ensures AnsweredAt(ps, fl, wanted, low, ops, answers, k)
    ensures LedTo(ps, ViewOf(fl, wanted), ops, answers, k + 1, After(ps, ViewOf(fl, wanted), c, ops[k]))
  {
    if ops[k].NextDoc? {
      NextAnswered(ps, fl, wanted, low, ops, answers, k, c);
    } else {
      AdvanceAnswered(ps, fl, wanted, low, ops, answers, k, c);
    }
    MovedTo(ps, ViewOf(fl, wanted), ops, answers, k, c, Target(ps, c, ops[k]));
  }

  lemma MovedTo(ps: seq<Posting>, v: View, ops: seq<Op>, answers: seq<Answer>, k: nat, c: Cursor, index: int)
    requires LedTo(ps, v, ops, answers, k, c) && k < |ops| && Moves(ops[k])
    requires -1 <= index <= |ps| && answers[k] == Number(DocAt(ps, index))
    ensures LedTo(ps, v, ops, answers, k + 1, MoveTo(c, index))
  {
  }

  lemma PositionAnswered(ps: seq<Posting>, fl: Flags, wanted: bool, low: bool, ops: seq<Op>, answers: seq<Answer>, k: nat, c: Cursor)
    requires PostingsOk(ps, fl) && k < |ops| && ops[k].NextPosition?
    requires LedTo(ps, ViewOf(fl, wanted), ops, answers, k, c) && Legal(ps, ViewOf(fl, wanted), c, ops[k])
    requires answers[k] == Shown(Reply(ps, ViewOf(fl, wanted), c, ops[k]), low)
    ensures AnsweredAt(ps, fl, wanted, low, ops, answers, k)
    ensures LedTo(ps, ViewOf(fl, wanted), ops, answers, k + 1, After(ps, ViewOf(fl, wanted), c, ops[k]))
  {
    IsCurrent(ps, ViewOf(fl, wanted), ops, answers, k, c);
  }

  lemma QuestionAnswered(ps: seq<Posting>, fl: Flags, wanted: bool, low: bool, ops: seq<Op>, answers: seq<Answer>, k: nat, c: Cursor)
    requires PostingsOk(ps, fl) && k < |ops| && !Moves(ops[k]) && !ops[k].NextPosition?
    requires LedTo(ps, ViewOf(fl, wanted), ops, answers, k, c) && Legal(ps, ViewOf(fl, wanted), c, ops[k])
    requires answers[k] == Shown(Reply(ps, ViewOf(fl, wanted), c, ops[k]), low)
    ensures AnsweredAt(ps, fl, wanted, low, ops, answers, k)
    ensures LedTo(ps, ViewOf(fl, wanted), ops, answers, k + 1, After(ps, ViewOf(fl, wanted), c, ops[k]))
  {
    if !ops[k].Payload? { IsCurrent(ps, ViewOf(fl, wanted), ops, answers, k, c); }
  }

  lemma StepAnswered(ps: seq<Posting>, fl: Flags, wanted: bool, low: bool, ops: seq<Op>, answers: seq<Answer>, k: nat, c: Cursor)
    requires PostingsOk(ps, fl) && k < |ops|
    requires LedTo(ps, ViewOf(fl, wanted), ops, answers, k, c) && Legal(ps, ViewOf(fl, wanted), c, ops[k])
    requires answers[k] == Shown(Reply(ps, ViewOf(fl, wanted), c, ops[k]), low)
    ensures AnsweredAt(ps, fl, wanted, low, ops, answers, k)
    ensures LedTo(ps, ViewOf(fl, wanted), ops, answers, k + 1, After(ps, ViewOf(fl, wanted), c, ops[k]))
  {
    if Moves(ops[k]) {
      MoveAnswered(ps, fl, wanted, low, ops, answers, k, c);
    } else if ops[k].NextPosition? {
      PositionAnswered(ps, fl, wanted, low, ops, answers, k, c);
    } else {
      QuestionAnswered(ps, fl, wanted, low, ops, answers, k, c);
    }
  }

  /** From call k on, the answers are those of the reference cursor c. */
  ghost predicate GivenFrom(ps: seq<Posting>, v: View, low: bool, ops: seq<Op>, answers: seq<Answer>, k: nat, c: Cursor) {
    && LedTo(ps, v, ops, answers, k, c) && LegalRun(ps, v, c, ops[k..])
    && forall m: nat :: k <= m < |ops| ==> answers[m] == Shown(Replies(ps, v, c, ops[k..])[m - k], low)
  }

  lemma GivenNext(ps: seq<Posting>, fl: Flags, wanted: bool, low: bool, ops: seq<Op>, answers: seq<Answer>, k: nat, c: Cursor)
    requires PostingsOk(ps, fl) && k < |ops| && GivenFrom(ps, ViewOf(fl, wanted), low, ops, answers, k, c)
    ensures AnsweredAt(ps, fl, wanted, low, ops, answers, k) && Legal(ps, ViewOf(fl, wanted), c, ops[k])
    ensures GivenFrom(ps, ViewOf(fl, wanted), low, ops, answers, k + 1, After(ps, ViewOf(fl, wanted), c, ops[k]))
  {
    assert ops[k..][0] == ops[k] && ops[k..][1..] == ops[k + 1..];
    StepAnswered(ps, fl, wanted, low, ops, answers, k, c);
    RestGiven(ps, ViewOf(fl, wanted), low, ops, answers, k, c);
  }

  lemma {:induction false} RestGiven(ps: seq<Posting>, v: View, low: bool, ops: seq<Op>, answers: seq<Answer>, k: nat, c: Cursor)
    requires k < |ops| && GivenFrom(ps, v, low, ops, answers, k, c)
    ensures Legal(ps, v, c, ops[k]) && LegalRun(ps, v, After(ps, v, c, ops[k]), ops[k + 1..])
    ensures forall m: nat :: k < m < |ops| ==> answers[m] == Shown(Replies(ps, v, After(ps, v, c, ops[k]), ops[k + 1..])[m - (k + 1)], low)
  {
    assert ops[k..][0] == ops[k] && ops[k..][1..] == ops[k + 1..];
    var all := Replies(ps, v, c, ops[k..]);
    assert all[1..] == Replies(ps, v, After(ps, v, c, ops[k]), ops[k + 1..]);
    forall m: nat | k < m < |ops| ensures answers[m] == Shown(all[1..][m - (k + 1)], low) {
      assert all[m - k] == all[1..][m - (k + 1)];
    }
  }

  lemma {:induction false} RestAnswered(ps: seq<Posting>, fl: Flags, wanted: bool, low: bool, ops: seq<Op>, answers: seq<Answer>, k: nat, c: Cursor, n: nat)
    requires PostingsOk(ps, fl) && GivenFrom(ps, ViewOf(fl, wanted), low, ops, answers, k, c) && k <= n < |ops|
    ensures AnsweredAt(ps, fl, wanted, low, ops, answers, n)
    decreases n - k
  {
    GivenNext(ps, fl, wanted, low, ops, answers, k, c);
    if k < n { RestAnswered(ps, fl, wanted, low, ops, answers, k + 1, After(ps, ViewOf(fl, wanted), c, ops[k]), n); }
  }

  lemma {:induction false} GivenAll(ps: seq<Posting>, v: View, low: bool, ops: seq<Op>, answers: seq<Answer>)
    requires LegalRun(ps, v, START, ops) && |answers| == |ops|
    requires forall m: nat :: m < |ops| ==> answers[m] == Shown(Replies(ps, v, START, ops)[m], low)
    ensures GivenFrom(ps, v, low, ops, answers, 0, START)
  {
    assert ops[0..] == ops;
  }

  /** What the reference cursor answers to a legal run is right. */
  lemma {:induction false} RunAnswered(ps: seq<Posting>, fl: Flags, wanted: bool, low: bool, ops: seq<Op>, answers: seq<Answer>)
    requires PostingsOk(ps, fl) && LegalRun(ps, ViewOf(fl, wanted), START, ops) && |answers| == |ops|
    requires forall m: nat :: m < |ops| ==> answers[m] == Shown(Replies(ps, ViewOf(fl, wanted), START, ops)[m], low)
    ensures Answered(ps, fl, wanted, low, ops, answers)
  {
    GivenAll(ps, ViewOf(fl, wanted), low, ops, answers);
    forall n: nat | n < |ops| ensures AnsweredAt(ps, fl, wanted, low, ops, answers, n) {
      RestAnswered(ps, fl, wanted, low, ops, answers, 0, START, n);
    }
  }

  // ----- which calls are legal

  /** The iterator contract, said from the calls and answers so far: no move after the
      end, no advance to a document already passed, questions only on a document, no more
      positions than there are, offsets only of a position that was read. */
  ghost predicate MayAsk(ps: seq<Posting>, fl: Flags, wanted: bool, ops: seq<Op>, answers: seq<Answer>, op: Op)
    requires |ops| == |answers|
  {
    var k, doc := |ops|, LastDoc(ops, answers, |ops|);
    match op
    case NextDoc => doc != NO_MORE_DOCS
    case Advance(target) => doc < target <= NO_MORE_DOCS
    case Freq => 0 <= doc < NO_MORE_DOCS
    case NextPosition =>
      && 0 <= doc < NO_MORE_DOCS
      && (wanted && fl.hasPos ==> forall i: nat :: Current(ps, ops, answers, k, i) ==> ReadSince(ops, k) < |ps[i].occurrences|)
    case StartOffset => 0 <= doc < NO_MORE_DOCS && (wanted && fl.hasOffsets ==> ReadSince(ops, k) > 0)
    case EndOffset => 0 <= doc < NO_MORE_DOCS && (wanted && fl.hasOffsets ==> ReadSince(ops, k) > 0)
    case Payload => true
  }

  lemma DistinctDocs(ps: seq<Posting>, fl: Flags, i: nat, j: nat)
    requires PostingsOk(ps, fl) && i < |ps| && j < |ps| && i != j
    ensures ps[i].doc != ps[j].doc
  {
    assert Docs(ps)[i] != Docs(ps)[j];
  }

  lemma LegalHere(ps: seq<Posting>, fl: Flags, wanted: bool, ops: seq<Op>, answers: seq<Answer>, c: Cursor, op: Op)
    requires PostingsOk(ps, fl) && LedTo(ps, ViewOf(fl, wanted), ops, answers, |ops|, c)
    ensures Legal(ps, ViewOf(fl, wanted), c, op) <==> MayAsk(ps, fl, wanted, ops, answers, op)
  {
    if 0 <= c.index < |ps| {
      assert PostingAt(ps, fl, c.index);
      IsCurrent(ps, ViewOf(fl, wanted), ops, answers, |ops|, c);
      forall i: nat | Current(ps, ops, answers, |ops|, i) ensures i == c.index {
        if i != c.index { DistinctDocs(ps, fl, i, c.index); }
      }
    }
  }

  lemma {:induction false} LegalFrom(ps: seq<Posting>, fl: Flags, wanted: bool, low: bool, ops: seq<Op>, answers: seq<Answer>, k: nat, c: Cursor, op: Op)
    requires PostingsOk(ps, fl) && GivenFrom(ps, ViewOf(fl, wanted), low, ops, answers, k, c)
    ensures LegalRun(ps, ViewOf(fl, wanted), c, ops[k..] + [op]) <==> MayAsk(ps, fl, wanted, ops, answers, op)
    decreases |ops| - k
  {
    var more := ops[k..] + [op];
    if k == |ops| {
      assert more[1..] == [];
      LegalHere(ps, fl, wanted, ops, answers, c, op);
    } else {
      assert more[0] == ops[k] && more[1..] == ops[k + 1..] + [op];
      GivenNext(ps, fl, wanted, low, ops, answers, k, c);
      LegalFrom(ps, fl, wanted, low, ops, answers, k + 1, After(ps, ViewOf(fl, wanted), c, ops[k]), op);
    }
  }

  /** After a legal run exactly these calls are legal. */
  lemma {:induction false} LegalIff(ps: seq<Posting>, fl: Flags, wanted: bool, ops: seq<Op>, op: Op)
    requires PostingsOk(ps, fl) && LegalRun(ps, ViewOf(fl, wanted), START, ops)
    ensures LegalRun(ps, ViewOf(fl, wanted), START, ops + [op]) <==>
            MayAsk(ps, fl, wanted, ops, Replies(ps, ViewOf(fl, wanted), START, ops), op)
  {
    var answers := Replies(ps, ViewOf(fl, wanted), START, ops);
    GivenAll(ps, ViewOf(fl, wanted), false, ops, answers);
    LegalFrom(ps, fl, wanted, false, ops, answers, 0, START, op);
    assert ops[0..] == ops;
  }
}
