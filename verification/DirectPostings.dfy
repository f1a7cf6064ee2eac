/** Choosing a layout by document frequency and a cursor by the flags, and why a caller
    cannot tell which layout was chosen. */
module DirectPostings {
  import opened Options
  import opened Postings
  import opened ObservedAnswers
  import L = LowFreqLayout
  import LC = LowFreqCursors
  import H = HighFreqCursors

  // ----- what the low-frequency layout loses

  function Normal(p: Option<Bytes>): Option<Bytes> { if p == Some([]) then None else p }

  function NormalOccurrence(o: Occurrence): Occurrence { o.(payload := Normal(o.payload)) }

  function NormalPosting(p: Posting): (q: Posting)
    ensures q.doc == p.doc && q.freq == p.freq && |q.occurrences| == |p.occurrences|
  {
    p.(occurrences := seq(|p.occurrences|, j requires 0 <= j < |p.occurrences| => NormalOccurrence(p.occurrences[j])))
  }

  /** The postings as the low-frequency layout returns them: an empty payload is none. */
  function Normalized(ps: seq<Posting>): (qs: seq<Posting>)
    ensures |qs| == |ps|
    ensures forall i :: 0 <= i < |ps| ==> qs[i] == NormalPosting(ps[i])
  {
    seq(|ps|, i requires 0 <= i < |ps| => NormalPosting(ps[i]))
  }

  lemma NormalizedOk(ps: seq<Posting>, fl: Flags)
    requires PostingsOk(ps, fl)
    ensures PostingsOk(Normalized(ps), fl) && LC.NoEmptyPayloads(Normalized(ps)) && Docs(Normalized(ps)) == Docs(ps)
  {
    var qs := Normalized(ps);
    assert Docs(qs) == Docs(ps);
    forall i: nat | i < |qs| ensures PostingAt(qs, fl, i) { assert PostingAt(ps, fl, i); }
  }

  lemma {:induction false} SameOccurrences(os: seq<Occurrence>, os': seq<Occurrence>, fl: Flags)
    requires |os| == |os'| && forall j :: 0 <= j < |os| ==> os'[j] == NormalOccurrence(os[j])
    ensures L.OccurrencesInts(os, fl) == L.OccurrencesInts(os', fl)
    ensures L.OccurrencesBytes(os) == L.OccurrencesBytes(os')
    decreases |os|
  {
    if os != [] {
      var n := |os| - 1;
      SameOccurrences(os[..n], os'[..n], fl);
      assert L.PayloadOf(os[n]) == L.PayloadOf(os'[n]);
    }
  }

  /** Both spellings of a missing payload are stored alike. */
  lemma {:induction false} SameStream(ps: seq<Posting>, fl: Flags)
    ensures L.Stream(ps, fl) == L.Stream(Normalized(ps), fl)
    ensures L.PayloadStream(ps, fl) == L.PayloadStream(Normalized(ps), fl)
    decreases |ps|
  {
    if ps != [] {
      var n := |ps| - 1;
      SameStream(ps[..n], fl);
      assert Normalized(ps)[..n] == Normalized(ps[..n]);
      SameOccurrences(ps[n].occurrences, Normalized(ps)[n].occurrences, fl);
    }
  }

  // ----- the cursor enum

  datatype DirectPostingsEnum =
    | LowFreqDocsNoTf(noTf: LC.LowFreqDocsEnumNoTf)
    | LowFreqDocsNoPos(noPos: LC.LowFreqDocsEnumNoPos)
    | LowFreqDocs(docs: LC.LowFreqDocsEnum)
    | LowFreqPostings(postings: LC.LowFreqPostingsEnum)
    | HighFreqDocs(highDocs: H.HighFreqDocsEnum)
    | HighFreqPostings(highPostings: H.HighFreqPostingsEnum)

  ghost function Object(e: DirectPostingsEnum): object {
    match e
    case LowFreqDocsNoTf(c) => c
    case LowFreqDocsNoPos(c) => c
    case LowFreqDocs(c) => c
    case LowFreqPostings(c) => c
    case HighFreqDocs(c) => c
    case HighFreqPostings(c) => c
  }

  ghost function Cur(e: DirectPostingsEnum): Cursor
    reads Object(e)
  {
    match e
    case LowFreqDocsNoTf(c) => c.cur
    case LowFreqDocsNoPos(c) => c.cur
    case LowFreqDocs(c) => c.cur
    case LowFreqPostings(c) => c.cur
    case HighFreqDocs(c) => c.cur
    case HighFreqPostings(c) => c.cur
  }

  /** The cursor reads the given postings and shows the given view of them. */
  ghost predicate Reads(e: DirectPostingsEnum, ps: seq<Posting>, v: View) {
    match e
    case LowFreqDocsNoTf(c) => c.Setup() && c.ps == ps && ViewOf(c.fl, false) == v
    case LowFreqDocsNoPos(c) => c.Setup() && c.ps == ps && ViewOf(c.fl, false) == v
    case LowFreqDocs(c) => c.Setup() && c.ps == ps && ViewOf(c.fl, false) == v
    case LowFreqPostings(c) => c.Setup() && c.ps == ps && c.V() == v
    case HighFreqDocs(c) => c.Setup() && c.ps == ps && c.V() == v
    case HighFreqPostings(c) => c.Setup() && c.ps == ps && c.V() == v
  }

  ghost predicate Valid(e: DirectPostingsEnum)
    reads Object(e)
  {
    match e
    case LowFreqDocsNoTf(c) => c.Valid()
    case LowFreqDocsNoPos(c) => c.Valid()
    case LowFreqDocs(c) => c.Valid()
    case LowFreqPostings(c) => c.Valid()
    case HighFreqDocs(c) => c.Valid()
    case HighFreqPostings(c) => c.Valid()
  }

  /** Cursors over the high-frequency layout advance by galloping. */
  predicate Gallops(e: DirectPostingsEnum) { e.HighFreqDocs? || e.HighFreqPostings? }

  /** The cursor for a term in the low-frequency layout. */
  method ForLowTerm(term: L.LowFreqTerm, ghost ps: seq<Posting>, fl: Flags, positionsWanted: bool)
    returns (e: DirectPostingsEnum)
    requires LC.Holds(term, ps, fl) && LC.NoEmptyPayloads(ps)
    ensures fresh(Object(e)) && Reads(e, ps, ViewOf(fl, positionsWanted)) && Valid(e) && Cur(e) == START
    ensures !Gallops(e)
  {
    if positionsWanted {
      if !fl.hasFreq {
        var c := new LC.LowFreqDocsEnumNoTf(term, ps, fl);
        e := LowFreqDocsNoTf(c);
      } else if !fl.hasPos {
        var c := new LC.LowFreqDocsEnumNoPos(term, ps, fl);
        e := LowFreqDocsNoPos(c);
      } else {
        var c := new LC.LowFreqPostingsEnum(term, fl.hasOffsets, fl.hasPayloads, ps, fl);
        e := LowFreqPostings(c);
      }
    } else if fl.hasFreq && fl.hasPos {
      var posLen := if fl.hasOffsets then 3 else 1;
      if fl.hasPayloads {
        posLen := posLen + 1;
      }
      var c := new LC.LowFreqDocsEnum(term, posLen, ps, fl);
      e := LowFreqDocs(c);
    } else if fl.hasFreq {
      var c := new LC.LowFreqDocsEnumNoPos(term, ps, fl);
      e := LowFreqDocsNoPos(c);
    } else {
      var c := new LC.LowFreqDocsEnumNoTf(term, ps, fl);
      e := LowFreqDocsNoTf(c);
    }
  }

  /** The cursor for a term in the high-frequency layout. */
  method ForHighTerm(term: H.HighFreqTerm, ghost ps: seq<Posting>, fl: Flags, positionsWanted: bool)
    returns (e: DirectPostingsEnum)
    requires H.HoldsHigh(term, ps, fl)
    ensures fresh(Object(e)) && Reads(e, ps, ViewOf(fl, positionsWanted)) && Valid(e) && Cur(e) == START
    ensures Gallops(e)
  {
    if positionsWanted && fl.hasPos {
      var c := new H.HighFreqPostingsEnum(term, fl.hasOffsets, ps, fl);
      e := HighFreqPostings(c);
    } else {
      var c := new H.HighFreqDocsEnum(term, ps, fl);
      e := HighFreqDocs(c);
    }
  }

  method NextDoc(e: DirectPostingsEnum, ghost ps: seq<Posting>, ghost v: View) returns (d: int)
    requires Reads(e, ps, v) && Valid(e) && Legal(ps, v, Cur(e), Op.NextDoc)
    modifies Object(e)
    ensures Valid(e) && Cur(e) == After(ps, v, old(Cur(e)), Op.NextDoc)
    ensures Number(d) == Reply(ps, v, old(Cur(e)), Op.NextDoc)
  {
    match e
    case LowFreqDocsNoTf(c) => d := c.NextDoc();
    case LowFreqDocsNoPos(c) => d := c.NextDoc();
    case LowFreqDocs(c) => d := c.NextDoc();
    case LowFreqPostings(c) => d := c.NextDoc();
    case HighFreqDocs(c) => d := c.NextDoc();
    case HighFreqPostings(c) => d := c.NextDoc();
  }

  method Advance(e: DirectPostingsEnum, target: int, ghost ps: seq<Posting>, ghost v: View) returns (r: Option<int>)
    requires Reads(e, ps, v) && Valid(e) && Legal(ps, v, Cur(e), Op.Advance(target))
    modifies Object(e)
    ensures r.None? <==> Gallops(e) && Overflows(ps, old(Cur(e)), Op.Advance(target))
    ensures r.Some? ==> Valid(e) && Cur(e) == After(ps, v, old(Cur(e)), Op.Advance(target))
    ensures r.Some? ==> Number(r.value) == Reply(ps, v, old(Cur(e)), Op.Advance(target))
  {
    match e
    case LowFreqDocsNoTf(c) => var d := c.Advance(target); r := Some(d);
    case LowFreqDocsNoPos(c) => var d := c.Advance(target); r := Some(d);
    case LowFreqDocs(c) => var d := c.Advance(target); r := Some(d);
    case LowFreqPostings(c) => var d := c.Advance(target); r := Some(d);
    case HighFreqDocs(c) => r := c.Advance(target);
    case HighFreqPostings(c) => r := c.Advance(target);
  }

  method Freq(e: DirectPostingsEnum, ghost ps: seq<Posting>, ghost v: View) returns (f: int)
    requires Reads(e, ps, v) && Valid(e) && Legal(ps, v, Cur(e), Op.Freq)
    ensures Number(f) == Reply(ps, v, Cur(e), Op.Freq)
  {
    match e
    case LowFreqDocsNoTf(c) => f := c.Freq();
    case LowFreqDocsNoPos(c) => f := c.Freq();
    case LowFreqDocs(c) => f := c.Freq();
    case LowFreqPostings(c) => f := c.Freq();
    case HighFreqDocs(c) => f := c.Freq();
    case HighFreqPostings(c) => f := c.Freq();
  }

  method NextPosition(e: DirectPostingsEnum, ghost ps: seq<Posting>, ghost v: View) returns (pos: int)
    requires Reads(e, ps, v) && Valid(e) && Legal(ps, v, Cur(e), Op.NextPosition)
    modifies Object(e)
    ensures Valid(e) && Cur(e) == After(ps, v, old(Cur(e)), Op.NextPosition)
    ensures Number(pos) == Reply(ps, v, old(Cur(e)), Op.NextPosition)
  {
    match e
    case LowFreqDocsNoTf(_) => pos := -1;
    case LowFreqDocsNoPos(_) => pos := -1;
    case LowFreqDocs(_) => pos := -1;
    case LowFreqPostings(c) => pos := c.NextPosition();
    case HighFreqDocs(_) => pos := -1;
    case HighFreqPostings(c) => pos := c.NextPosition();
  }

  method StartOffset(e: DirectPostingsEnum, ghost ps: seq<Posting>, ghost v: View) returns (r: int)
    requires Reads(e, ps, v) && Valid(e) && Legal(ps, v, Cur(e), Op.StartOffset)
    ensures Number(r) == Reply(ps, v, Cur(e), Op.StartOffset)
  {
    match e
    case LowFreqDocsNoTf(_) => r := -1;
    case LowFreqDocsNoPos(_) => r := -1;
    case LowFreqDocs(_) => r := -1;
    case LowFreqPostings(c) => r := c.StartOffset();
    case HighFreqDocs(_) => r := -1;
    case HighFreqPostings(c) => r := c.StartOffset();
  }

  method EndOffset(e: DirectPostingsEnum, ghost ps: seq<Posting>, ghost v: View) returns (r: int)
    requires Reads(e, ps, v) && Valid(e) && Legal(ps, v, Cur(e), Op.EndOffset)
    ensures Number(r) == Reply(ps, v, Cur(e), Op.EndOffset)
  {
    match e
    case LowFreqDocsNoTf(_) => r := -1;
    case LowFreqDocsNoPos(_) => r := -1;
    case LowFreqDocs(_) => r := -1;
    case LowFreqPostings(c) => r := c.EndOffset();
    case HighFreqDocs(_) => r := -1;
    case HighFreqPostings(c) => r := c.EndOffset();
  }

  method GetPayload(e: DirectPostingsEnum, ghost ps: seq<Posting>, ghost v: View) returns (r: Option<Bytes>)
    requires Reads(e, ps, v) && Valid(e) && Legal(ps, v, Cur(e), Op.Payload)
    ensures Data(r) == Reply(ps, v, Cur(e), Op.Payload)
  {
    match e
    case LowFreqDocsNoTf(_) => r := None;
    case LowFreqDocsNoPos(_) => r := None;
    case LowFreqDocs(_) => r := None;
    case LowFreqPostings(c) => r := c.GetPayload();
    case HighFreqDocs(_) => r := None;
    case HighFreqPostings(c) => r := c.GetPayload();
  }

  /** Makes one call. None where the source stops because a gallop overflows. */
  method Ask(e: DirectPostingsEnum, op: Op, ghost ps: seq<Posting>, ghost v: View) returns (a: Option<Answer>)
    requires Reads(e, ps, v) && Valid(e) && Legal(ps, v, Cur(e), op)
    modifies Object(e)
    ensures a.None? <==> Gallops(e) && Overflows(ps, old(Cur(e)), op)
    ensures a.Some? ==> Valid(e) && Cur(e) == After(ps, v, old(Cur(e)), op) && a.value == Reply(ps, v, old(Cur(e)), op)
  {
    match op
    case NextDoc => var d := NextDoc(e, ps, v); a := Some(Number(d));
    case Advance(target) => var d := Advance(e, target, ps, v); a := if d.None? then None else Some(Number(d.value));
    case Freq => var f := Freq(e, ps, v); a := Some(Number(f));
    case NextPosition => var pos := NextPosition(e, ps, v); a := Some(Number(pos));
    case StartOffset => var r := StartOffset(e, ps, v); a := Some(Number(r));
    case EndOffset => var r := EndOffset(e, ps, v); a := Some(Number(r));
    case Payload => var r := GetPayload(e, ps, v); a := Some(Data(r));
  }

  /** Makes a run of legal calls from where the cursor stands. */
  method RunOn(e: DirectPostingsEnum, ops: seq<Op>, ghost ps: seq<Posting>, ghost v: View) returns (answers: Option<seq<Answer>>)
    requires Reads(e, ps, v) && Valid(e) && LegalRun(ps, v, Cur(e), ops)
    modifies Object(e)
    ensures answers.None? <==> Gallops(e) && RunOverflows(ps, v, old(Cur(e)), ops)
    ensures answers.Some? ==> answers.value == Replies(ps, v, old(Cur(e)), ops)
    decreases |ops|
  {
    if ops == [] { return Some([]); }
    var a := Ask(e, ops[0], ps, v);
    if a.None? { return None; }
    var rest := RunOn(e, ops[1..], ps, v);
    if rest.None? { return None; }
    answers := Some([a.value] + rest.value);
  }

  /** Makes a whole run of legal calls, of any new cursor over any layout. */
  method Run(e: DirectPostingsEnum, ops: seq<Op>, ghost ps: seq<Posting>, ghost fl: Flags, ghost positionsWanted: bool)
    returns (answers: Option<seq<Answer>>)
    requires PostingsOk(ps, fl) && Reads(e, ps, ViewOf(fl, positionsWanted)) && Valid(e)
    requires Cur(e) == START && LegalRun(ps, ViewOf(fl, positionsWanted), START, ops)
    modifies Object(e)
    ensures answers.None? <==> Gallops(e) && RunOverflows(ps, ViewOf(fl, positionsWanted), START, ops)
    ensures answers.Some? ==> answers.value == Replies(ps, ViewOf(fl, positionsWanted), START, ops)
    ensures answers.Some? ==> Answered(ps, fl, positionsWanted, false, ops, answers.value)
  {
    answers := RunOn(e, ops, ps, ViewOf(fl, positionsWanted));
    if answers.Some? { RunAnswered(ps, fl, positionsWanted, false, ops, answers.value); }
  }

  // ----- the cutoff

  function NormalCursor(c: Cursor): Cursor { c.(payload := Normal(c.payload)) }

  function NormalAnswer(a: Answer): Answer { if a.Data? then Data(Normal(a.bytes)) else a }

  function NormalAnswers(s: seq<Answer>): (t: seq<Answer>)
    ensures |t| == |s| && forall k :: 0 <= k < |s| ==> t[k] == NormalAnswer(s[k])
  {
    seq(|s|, k requires 0 <= k < |s| => NormalAnswer(s[k]))
  }

  lemma NormalStep(ps: seq<Posting>, v: View, c: Cursor, op: Op)
    requires CursorOk(ps, v, c) && Legal(ps, v, c, op)
    ensures CursorOk(Normalized(ps), v, NormalCursor(c)) && Legal(Normalized(ps), v, NormalCursor(c), op)
    ensures After(Normalized(ps), v, NormalCursor(c), op) == NormalCursor(After(ps, v, c, op))
    ensures Reply(Normalized(ps), v, NormalCursor(c), op) == NormalAnswer(Reply(ps, v, c, op))
  {
    assert Docs(Normalized(ps)) == Docs(ps);
  }

  /** On normalized postings every run is as legal as before and every answer the same,
      except that an empty payload becomes none. */
  lemma {:induction false} NormalRun(ps: seq<Posting>, v: View, c: Cursor, ops: seq<Op>)
    requires CursorOk(ps, v, c) && LegalRun(ps, v, c, ops)
    ensures CursorOk(Normalized(ps), v, NormalCursor(c)) && LegalRun(Normalized(ps), v, NormalCursor(c), ops)
    ensures Replies(Normalized(ps), v, NormalCursor(c), ops) == NormalAnswers(Replies(ps, v, c, ops))
    decreases |ops|
  {
    if ops != [] {
      NormalStep(ps, v, c, ops[0]);
      NormalRun(ps, v, After(ps, v, c, ops[0]), ops[1..]);
    }
  }

  /** What a run sees of a term in the low- or the high-frequency layout: the first shows
      an empty payload as none, the second fails where a gallop overflows. */
  ghost function Seen(ps: seq<Posting>, v: View, low: bool, ops: seq<Op>): Option<seq<Answer>>
    requires LegalRun(ps, v, START, ops)
  {
    var replies := Replies(ps, v, START, ops);
    if low then Some(NormalAnswers(replies))
    else if RunOverflows(ps, v, START, ops) then None
    else Some(replies)
  }

  /** What a caller sees of a term: the layout is chosen by its document frequency. */
  method Observe(ps: seq<Posting>, fl: Flags, lowFreqCutoff: int, positionsWanted: bool, ops: seq<Op>)
    returns (answers: Option<seq<Answer>>)
    requires PostingsOk(ps, fl) && LegalRun(ps, ViewOf(fl, positionsWanted), START, ops)
    ensures answers == Seen(ps, ViewOf(fl, positionsWanted), |ps| <= lowFreqCutoff, ops)
    ensures answers.Some? ==> Answered(ps, fl, positionsWanted, |ps| <= lowFreqCutoff, ops, answers.value)
  {
    ghost var v := ViewOf(fl, positionsWanted);
    if |ps| <= lowFreqCutoff {
      var term := L.Encode(ps, fl);
      SameStream(ps, fl);
      L.StoresReadable(term, Normalized(ps), fl);
      NormalizedOk(ps, fl);
      NormalRun(ps, v, START, ops);
      var e := ForLowTerm(term, Normalized(ps), fl, positionsWanted);
      answers := Run(e, ops, Normalized(ps), fl, positionsWanted);
      RunAnswered(ps, fl, positionsWanted, true, ops, answers.value);
    } else {
      var term := H.EncodeHigh(ps, fl);
      var e := ForHighTerm(term, ps, fl, positionsWanted);
      answers := Run(e, ops, ps, fl, positionsWanted);
    }
  }

  /** Both layouts give the same answers to a run. */
  ghost predicate SameAnswers(ps: seq<Posting>, v: View, ops: seq<Op>)
    requires LegalRun(ps, v, START, ops)
  {
    Seen(ps, v, true, ops) == Seen(ps, v, false, ops)
  }

  /** The choice of layout cannot be observed by any legal run that no gallop fails,
      exactly when no payload the cursor shows is present but empty. */
  lemma {:induction false} CutoffUnobservableIff(ps: seq<Posting>, fl: Flags, positionsWanted: bool)
    requires PostingsOk(ps, fl)
    ensures var v := ViewOf(fl, positionsWanted);
            (forall ops: seq<Op> :: LegalRun(ps, v, START, ops) && !RunOverflows(ps, v, START, ops) ==> SameAnswers(ps, v, ops))
            <==> (v.payloads ==> LC.NoEmptyPayloads(ps))
  {
    var v := ViewOf(fl, positionsWanted);
    if v.payloads ==> LC.NoEmptyPayloads(ps) {
      forall ops: seq<Op> | LegalRun(ps, v, START, ops) && !RunOverflows(ps, v, START, ops) ensures SameAnswers(ps, v, ops) {
        NoEmptyAnswers(ps, v, START, ops);
      }
    } else {
      var i: nat, j: nat :| i < |ps| && j < |ps[i].occurrences| && !LC.NonEmptyPayload(ps, i, j);
      EmptyPayloadDiffers(ps, fl, v, i, j);
    }
  }

  /** The same run over the same term under two cutoffs. */
  method ObserveBoth(ps: seq<Posting>, fl: Flags, cutoff: int, other: int, positionsWanted: bool, ops: seq<Op>)
    returns (answers: Option<seq<Answer>>, others: Option<seq<Answer>>)
    requires PostingsOk(ps, fl) && LegalRun(ps, ViewOf(fl, positionsWanted), START, ops)
    ensures var v := ViewOf(fl, positionsWanted);
            (v.payloads ==> LC.NoEmptyPayloads(ps)) && !RunOverflows(ps, v, START, ops) ==> answers == others && answers.Some?
  {
    ghost var v := ViewOf(fl, positionsWanted);
    answers := Observe(ps, fl, cutoff, positionsWanted, ops);
    others := Observe(ps, fl, other, positionsWanted, ops);
    if v.payloads ==> LC.NoEmptyPayloads(ps) { NoEmptyAnswers(ps, v, START, ops); }
  }

  /** A payload that is neither shown empty now nor met empty later is never shown empty. */
  lemma {:induction false} NoEmptyAnswers(ps: seq<Posting>, v: View, c: Cursor, ops: seq<Op>)
    requires CursorOk(ps, v, c) && LegalRun(ps, v, c, ops)
    requires v.payloads ==> LC.NoEmptyPayloads(ps)
    requires c.payload != Some([])
    ensures NormalAnswers(Replies(ps, v, c, ops)) == Replies(ps, v, c, ops)
    decreases |ops|
  {
    if ops != [] {
      if v.payloads && ops[0].NextPosition? && v.positions {
        assert LC.NonEmptyPayload(ps, c.index, c.read);
      }
      NoEmptyAnswers(ps, v, After(ps, v, c, ops[0]), ops[1..]);
    }
  }

  /** The calls that move on by m documents, read n positions and ask for the payload. */
  function ReadUpTo(m: nat, n: nat): seq<Op> {
    if m > 0 then [Op.NextDoc] + ReadUpTo(m - 1, n)
    else if n > 0 then [Op.NextPosition] + ReadUpTo(0, n - 1)
    else [Op.Payload]
  }

  /** The run is legal, gallops nowhere, and its last answer, after n others, is a. */
  ghost predicate EndsWith(ps: seq<Posting>, v: View, c: Cursor, ops: seq<Op>, n: nat, a: Answer)
    requires CursorOk(ps, v, c)
  {
    && LegalRun(ps, v, c, ops) && !RunOverflows(ps, v, c, ops)
    && var replies := Replies(ps, v, c, ops);
    |replies| == n + 1 && replies[n] == a
  }

  lemma OneMore(ps: seq<Posting>, v: View, c: Cursor, op: Op, rest: seq<Op>, n: nat, a: Answer)
    requires CursorOk(ps, v, c) && Legal(ps, v, c, op) && !op.Advance?
    requires EndsWith(ps, v, After(ps, v, c, op), rest, n, a)
    ensures EndsWith(ps, v, c, [op] + rest, n + 1, a)
  {
    assert ([op] + rest)[1..] == rest;
  }

  lemma {:induction false} ReadPositionsRun(ps: seq<Posting>, v: View, c: Cursor, n: nat, i: nat, j: nat)
    requires CursorOk(ps, v, c) && v.positions && v.payloads && i == c.index < |ps| && j < |ps[i].occurrences|
    requires c.read + n == j + 1 && (n == 0 ==> c.payload == ps[i].occurrences[j].payload)
    ensures EndsWith(ps, v, c, ReadUpTo(0, n), n, Data(ps[i].occurrences[j].payload))
    decreases n
  {
    if n > 0 {
      ReadPositionsRun(ps, v, After(ps, v, c, Op.NextPosition), n - 1, i, j);
      OneMore(ps, v, c, Op.NextPosition, ReadUpTo(0, n - 1), n - 1, Data(ps[i].occurrences[j].payload));
    } else {
      assert [Op.Payload][1..] == [];
    }
  }

  /** They are legal, gallop nowhere, and end with the payload of the position reached. */
  lemma {:induction false} ReadUpToRun(ps: seq<Posting>, v: View, c: Cursor, m: nat, n: nat, i: nat, j: nat)
    requires CursorOk(ps, v, c) && v.positions && v.payloads && 0 <= i == c.index + m < |ps| && j < |ps[i].occurrences|
    requires n == j + 1 && (m == 0 ==> c.read == 0)
    ensures EndsWith(ps, v, c, ReadUpTo(m, n), m + n, Data(ps[i].occurrences[j].payload))
    decreases m
  {
    if m > 0 {
      ReadUpToRun(ps, v, After(ps, v, c, Op.NextDoc), m - 1, n, i, j);
      OneMore(ps, v, c, Op.NextDoc, ReadUpTo(m - 1, n), m + n - 1, Data(ps[i].occurrences[j].payload));
    } else {
      ReadPositionsRun(ps, v, c, n, i, j);
    }
  }

  /** Reading the empty payload of position j of document i tells the layouts apart. */
  lemma {:induction false} EmptyPayloadDiffers(ps: seq<Posting>, fl: Flags, v: View, i: nat, j: nat)
    requires PostingsOk(ps, fl) && v.positions && v.payloads
    requires i < |ps| && j < |ps[i].occurrences| && ps[i].occurrences[j].payload == Some([])
    ensures var ops := ReadUpTo(i + 1, j + 1);
            LegalRun(ps, v, START, ops) && !RunOverflows(ps, v, START, ops) && !SameAnswers(ps, v, ops)
  {
    var ops := ReadUpTo(i + 1, j + 1);
    ReadUpToRun(ps, v, START, i + 1, j + 1, i, j);
    var replies := Replies(ps, v, START, ops);
    assert NormalAnswers(replies)[i + j + 2] == Data(None) != replies[i + j + 2];
  }

  /** Cutoffs on either side of the document frequency show an empty payload differently. */
  method TellApart(ps: seq<Posting>, fl: Flags, cutoff: int, other: int, i: nat, j: nat)
    returns (ops: seq<Op>, answers: Option<seq<Answer>>, others: Option<seq<Answer>>)
    requires PostingsOk(ps, fl) && fl.hasPos && fl.hasPayloads && other < |ps| <= cutoff
    requires i < |ps| && j < |ps[i].occurrences| && ps[i].occurrences[j].payload == Some([])
    ensures LegalRun(ps, ViewOf(fl, true), START, ops) && answers != others && answers.Some? && others.Some?
  {
    ops := ReadUpTo(i + 1, j + 1);
    EmptyPayloadDiffers(ps, fl, ViewOf(fl, true), i, j);
    answers := Observe(ps, fl, cutoff, true, ops);
    others := Observe(ps, fl, other, true, ops);
  }
}
