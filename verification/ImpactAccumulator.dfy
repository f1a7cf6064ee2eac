/** Accumulating impacts: a table of the highest frequency for each norm that fits a
    byte, and a frontier of the pairs whose norm does not. */
module ImpactAccumulator {
  import opened Impacts

  predicate IsByte(norm: int) { -128 <= norm <= 127 }

  function Index(norm: int): (i: nat)
    requires IsByte(norm)
    ensures i < 256 && NormAt(i) == norm
  {
    if norm < 0 then norm + 256 else norm
  }

  /** The norm a slot stands for: its index read as a signed byte. */
  function NormAt(i: nat): (norm: int)
    requires i < 256
    ensures IsByte(norm)
  {
    if i < 128 then i else i - 256
  }

  /** The table cannot hold a pair with a byte norm and no positive frequency. */
  predicate KeptPair(p: Impact) { WellFormed(p) && (IsByte(p.norm) ==> p.freq >= 1) }

  ghost predicate AllKept(pairs: set<Impact>) {
    forall p :: p in pairs ==> KeptPair(p)
  }

  ghost function ByteNorms(pairs: set<Impact>): set<Impact> { set p | p in pairs && IsByte(p.norm) }

  ghost function OtherNorms(pairs: set<Impact>): set<Impact> { set p | p in pairs && !IsByte(p.norm) }

  /** Slot i holds the highest frequency added with its norm, 0 for none. */
  ghost predicate SlotOk(a: seq<int>, i: nat, pairs: set<Impact>)
    requires i < |a| == 256
  {
    && a[i] >= 0
    && (a[i] > 0 ==> Impact(a[i], NormAt(i)) in pairs)
    && forall p :: p in pairs && p.norm == NormAt(i) ==> p.freq <= a[i]
  }

  ghost predicate TableOk(a: seq<int>, pairs: set<Impact>) {
    |a| == 256 && forall i: nat :: i < 256 ==> SlotOk(a, i, pairs)
  }

  // ----- the records of the table

  /** Of the slots before k, impacts lists those that exceed all before them. */
  ghost predicate RecordsBefore(impacts: seq<Impact>, highest: int, pairs: set<Impact>, k: nat) {
    && Chain(impacts)
    && highest == (if impacts == [] then 0 else impacts[|impacts| - 1].freq)
    && (forall i: nat :: i < |impacts| ==> RecordAt(impacts, pairs, i, k))
    && (forall p {:trigger Covered(impacts, p)} :: p in pairs && IsByte(p.norm) && Index(p.norm) < k ==> Covered(impacts, p))
  }

  ghost predicate RecordAt(impacts: seq<Impact>, pairs: set<Impact>, i: nat, k: nat)
    requires i < |impacts|
  {
    impacts[i] in pairs && IsByte(impacts[i].norm) && Index(impacts[i].norm) < k
  }

  lemma SlotOrder(i: nat, j: nat)
    requires i < j < 256
    ensures Unsigned(NormAt(i)) < Unsigned(NormAt(j))
  {
  }

  /** A slot no higher than the highest record so far adds none. */
  lemma SlotCovered(a: seq<int>, pairs: set<Impact>, impacts: seq<Impact>, highest: int, k: nat, i: nat, p: Impact)
    requires TableOk(a, pairs) && AllKept(pairs) && RecordsBefore(impacts, highest, pairs, k)
    requires k <= i < 256 && a[i] <= highest && p in pairs && p.norm == NormAt(i)
    ensures Covered(impacts, p)
  {
    assert SlotOk(a, i, pairs) && KeptPair(p);
    var last := |impacts| - 1;
    assert RecordAt(impacts, pairs, last, k);
    SlotOrder(Index(impacts[last].norm), i);
    assert Dominates(impacts[last], p);
  }

  lemma SlotsPassed(a: seq<int>, pairs: set<Impact>, impacts: seq<Impact>, highest: int, k: nat, k': nat)
    requires TableOk(a, pairs) && AllKept(pairs) && RecordsBefore(impacts, highest, pairs, k)
    requires k <= k' <= 256 && forall i :: k <= i < k' ==> a[i] <= highest
    ensures RecordsBefore(impacts, highest, pairs, k')
  {
    forall i: nat | i < |impacts| ensures RecordAt(impacts, pairs, i, k') {
      assert RecordAt(impacts, pairs, i, k);
    }
    forall p | p in pairs && IsByte(p.norm) && Index(p.norm) < k' ensures Covered(impacts, p) {
      if Index(p.norm) >= k { SlotCovered(a, pairs, impacts, highest, k, Index(p.norm), p); }
    }
  }

  lemma CoveredMore(s: seq<Impact>, e: Impact, p: Impact)
    requires Covered(s, p) || Dominates(e, p)
    ensures Covered(s + [e], p)
  {
    if Covered(s, p) {
      var k: nat :| k < |s| && Dominates(s[k], p);
      assert (s + [e])[k] == s[k];
    } else {
      assert (s + [e])[|s|] == e;
    }
  }

  lemma SlotRecorded(a: seq<int>, pairs: set<Impact>, impacts: seq<Impact>, highest: int, k: nat)
    requires TableOk(a, pairs) && AllKept(pairs) && RecordsBefore(impacts, highest, pairs, k)
    requires k < 256 && a[k] > highest
    ensures RecordsBefore(impacts + [Impact(a[k], NormAt(k))], a[k], pairs, k + 1)
  {
    var e := Impact(a[k], NormAt(k));
    var r := impacts + [e];
    var next := k + 1;
    assert SlotOk(a, k, pairs);
    assert impacts != [] ==> RecordAt(impacts, pairs, |impacts| - 1, k);
    forall i: nat | i < |r| ensures RecordAt(r, pairs, i, next) {
      assert i < |impacts| ==> RecordAt(impacts, pairs, i, k);
    }
    forall i: nat, j: nat | i < j < |r| ensures Rising(r, i, j) {
      assert RecordAt(impacts, pairs, i, k);
      SlotOrder(Index(impacts[i].norm), k);
      assert j < |impacts| ==> Rising(impacts, i, j);
      assert i < |impacts| - 1 ==> Rising(impacts, i, |impacts| - 1);
    }
    forall p | p in pairs && IsByte(p.norm) && Index(p.norm) < k + 1 ensures Covered(r, p) {
      CoveredMore(impacts, e, p);
    }
  }

  method BlockMax(a: seq<int>, from: nat) returns (m: int)
    requires from + 16 <= |a|
    ensures forall i :: from <= i < from + 16 ==> a[i] <= m
  {
    m := a[from];
    for i := from + 1 to from + 16
      invariant forall j :: from <= j < i ==> a[j] <= m
    {
      if a[i] > m { m := a[i]; }
    }
  }

  method ScanBlock(a: seq<int>, ghost pairs: set<Impact>, block: nat, impacts0: seq<Impact>, highest0: int)
    returns (impacts: seq<Impact>, highest: int)
    requires TableOk(a, pairs) && AllKept(pairs) && block < 16
    requires RecordsBefore(impacts0, highest0, pairs, block * 16)
    ensures RecordsBefore(impacts, highest, pairs, (block + 1) * 16)
  {
    impacts, highest := impacts0, highest0;
    var max := BlockMax(a, block * 16);
    if max <= highest {
      SlotsPassed(a, pairs, impacts, highest, block * 16, (block + 1) * 16);
      return;
    }
    for offset := 0 to 16
      invariant RecordsBefore(impacts, highest, pairs, block * 16 + offset)
    {
      var i := block * 16 + offset;
      if a[i] > highest {
        SlotRecorded(a, pairs, impacts, highest, i);
        impacts := impacts + [Impact(a[i], NormAt(i))];
        highest := a[i];
      } else {
        SlotsPassed(a, pairs, impacts, highest, i, i + 1);
      }
    }
  }

  /** The frontier of the byte norms: a block of slots below the highest record is
      passed over at once. */
  method TableRecords(a: seq<int>, ghost pairs: set<Impact>) returns (impacts: seq<Impact>)
    requires TableOk(a, pairs) && AllKept(pairs)
    ensures IsFrontier(impacts, ByteNorms(pairs))
  {
    impacts := [];
    var highest := 0;
    for block := 0 to 16
      invariant RecordsBefore(impacts, highest, pairs, block * 16)
    {
      impacts, highest := ScanBlock(a, pairs, block, impacts, highest);
    }
    forall k: nat | k < |impacts| ensures impacts[k] in ByteNorms(pairs) {
      assert RecordAt(impacts, pairs, k, 256);
    }
  }

  // ----- putting parts together

  /** A frontier of a frontier's members and more is a frontier of all pairs. */
  lemma FrontierOfUnion(r: seq<Impact>, s: seq<Impact>, t: seq<Impact>, left: set<Impact>, right: set<Impact>)
    requires IsFrontier(s, left) && IsFrontier(t, right) && IsFrontier(r, left + Members(t))
    ensures IsFrontier(r, left + right)
  {
    forall k: nat | k < |t| ensures Covered(r, t[k]) {
      assert t[k] in left + Members(t);
    }
    forall p | p in left + right ensures Covered(r, p) {
      if p in right {
        assert Covered(t, p);
        CoveredTrans(r, t, p);
      } else {
        assert p in left + Members(t);
      }
    }
    forall k: nat | k < |r| ensures r[k] in left + right {
      assert r[k] in left + Members(t);
    }
  }

  lemma MembersStep(left: set<Impact>, t: seq<Impact>, k: nat)
    requires k < |t|
    ensures left + Members(t[..k + 1]) == (left + Members(t[..k])) + {t[k]}
    ensures left + Members(t[..0]) == left && t[..|t|] == t
  {
    assert t[..k + 1] == t[..k] + [t[k]];
  }

  /** Adds every pair of a list, one by one. */
  method AddEach(s: seq<Impact>, t: seq<Impact>, ghost left: set<Impact>) returns (r: seq<Impact>)
    requires IsFrontier(s, left)
    ensures IsFrontier(r, left + Members(t))
  {
    r := s;
    ghost var sofar := left;
    var k := 0;
    while k < |t|
      invariant 0 <= k <= |t| && sofar == left + Members(t[..k]) && IsFrontier(r, sofar)
    {
      MembersStep(left, t, k);
      r := AddEntry(t[k], r, sofar);
      sofar := sofar + {t[k]};
      k := k + 1;
    }
    assert t[..|t|] == t;
  }

  method AddEntries(s: seq<Impact>, t: seq<Impact>, ghost left: set<Impact>, ghost right: set<Impact>) returns (r: seq<Impact>)
    requires IsFrontier(s, left) && IsFrontier(t, right)
    ensures IsFrontier(r, left + right)
  {
    r := AddEach(s, t, left);
    FrontierOfUnion(r, s, t, left, right);
  }

  // ----- the consistency test

  ghost predicate Anchored(pairs: set<Impact>, p: Impact) {
    exists q :: q in pairs && q.freq > 0 && Unsigned(q.norm) <= Unsigned(p.norm)
  }

  ghost predicate AllAnchored(pairs: set<Impact>) {
    forall p :: p in pairs ==> Anchored(pairs, p)
  }

  lemma MembersAnchor(s: seq<Impact>, pairs: set<Impact>)
    requires IsFrontier(s, pairs) && forall j :: 0 <= j < |s| ==> s[j].freq > 0
    ensures AllAnchored(pairs)
  {
    forall p | p in pairs ensures Anchored(pairs, p) {
      assert Covered(s, p);
      var k: nat :| k < |s| && Dominates(s[k], p);
      assert s[k] in pairs;
    }
  }

  lemma FirstIsLowest(s: seq<Impact>, k: nat)
    requires Chain(s) && k < |s|
    ensures k == 0 || Unsigned(s[0].norm) < Unsigned(s[k].norm)
  {
    assert k > 0 ==> Rising(s, 0, k);
  }

  lemma FirstNotAnchored(s: seq<Impact>, pairs: set<Impact>)
    requires IsFrontier(s, pairs) && s != [] && s[0].freq <= 0
    ensures !AllAnchored(pairs)
  {
    forall q | q in pairs && Unsigned(q.norm) <= Unsigned(s[0].norm) ensures q.freq <= 0 {
      assert Covered(s, q);
      var k: nat :| k < |s| && Dominates(s[k], q);
      FirstIsLowest(s, k);
    }
    assert s[0] in pairs && !Anchored(pairs, s[0]);
  }

  class CompetitiveImpactAccumulator {
    const maxFreqs: array<int>
    var otherFreqNormPairs: seq<Impact>
    /** The pairs accumulated since the last clear. */
    ghost var added: set<Impact>

    ghost predicate Valid()
      reads this, maxFreqs
    {
      && maxFreqs.Length == 256 && AllKept(added)
      && TableOk(maxFreqs[..], added)
      && IsFrontier(otherFreqNormPairs, OtherNorms(added))
    }

    constructor ()
      ensures Valid() && added == {} && fresh(maxFreqs)
    {
      maxFreqs := new int[256](_ => 0);
      otherFreqNormPairs, added := [], {};
      new;
      TableEmpty(maxFreqs[..]);
    }

    method Clear()
      requires Valid()
      modifies this, maxFreqs
      ensures Valid() && added == {}
    {
      for i := 0 to 256
        invariant forall j :: 0 <= j < i ==> maxFreqs[j] == 0
        invariant otherFreqNormPairs == old(otherFreqNormPairs) && added == old(added)
      {
        maxFreqs[i] := 0;
      }
      if otherFreqNormPairs != [] {
        otherFreqNormPairs := [];
      }
      added := {};
      TableEmpty(maxFreqs[..]);
    }

    /** Accumulates a pair. One with a byte norm and no positive frequency leaves no trace. */
    method Add(freq: int, norm: int)
      requires Valid() && InI64(norm)
      modifies this, maxFreqs
      ensures Valid()
      ensures added == old(added) + if IsByte(norm) && freq < 1 then {} else {Impact(freq, norm)}
    {
      ghost var p := Impact(freq, norm);
      if IsByte(norm) {
        var i := Index(norm);
        ghost var was := maxFreqs[..];
        maxFreqs[i] := if maxFreqs[i] > freq then maxFreqs[i] else freq;
        assert maxFreqs[..] == was[i := if was[i] > freq then was[i] else freq];
        assert SlotOk(was, i, added);
        if freq >= 1 { TableAdds(was, maxFreqs[..], added, p); } else { assert maxFreqs[..] == was; }
      } else {
        otherFreqNormPairs := AddEntry(Impact(freq, norm), otherFreqNormPairs, OtherNorms(added));
        TableIgnores(maxFreqs[..], added, p);
      }
      OthersStep(added, p);
      if KeptPair(p) { added := added + {p}; }
    }

    /** Merges another accumulator into this one. */
    method AddAll(acc: CompetitiveImpactAccumulator)
      requires Valid() && acc.Valid() && acc != this && acc.maxFreqs != maxFreqs
      modifies this, maxFreqs
      ensures Valid() && added == old(added) + acc.added
      ensures acc.Valid()
    {
      ghost var was := maxFreqs[..];
      for i := 0 to 256
        invariant forall j :: 0 <= j < i ==> maxFreqs[j] == if was[j] > acc.maxFreqs[j] then was[j] else acc.maxFreqs[j]
        invariant forall j :: i <= j < 256 ==> maxFreqs[j] == was[j]
        invariant otherFreqNormPairs == old(otherFreqNormPairs) && added == old(added)
      {
        if acc.maxFreqs[i] > maxFreqs[i] { maxFreqs[i] := acc.maxFreqs[i]; }
      }
      TableMerges(was, acc.maxFreqs[..], maxFreqs[..], added, acc.added);
      otherFreqNormPairs := AddEntries(otherFreqNormPairs, acc.otherFreqNormPairs, OtherNorms(added), OtherNorms(acc.added));
      assert OtherNorms(added + acc.added) == OtherNorms(added) + OtherNorms(acc.added);
      added := added + acc.added;
    }

    /** Replaces the content by that of another accumulator. */
    method CopyFrom(acc: CompetitiveImpactAccumulator)
      requires maxFreqs.Length == 256 && acc.Valid() && acc != this && acc.maxFreqs != maxFreqs
      modifies this, maxFreqs
      ensures Valid() && added == acc.added && acc.Valid()
    {
      ghost var src := acc.maxFreqs[..];
      forall i | 0 <= i < 256 { maxFreqs[i] := acc.maxFreqs[i]; }
      assert maxFreqs[..] == src && acc.maxFreqs[..] == src;
      otherFreqNormPairs := acc.otherFreqNormPairs;
      added := acc.added;
    }

    /** The competitive pairs, in order: those no accumulated pair dominates. */
    method GetCompetitiveFreqNormPairs() returns (impacts: seq<Impact>)
      requires Valid()
      ensures IsFrontier(impacts, added) && (forall k :: 0 <= k < |impacts| ==> impacts[k] in added)
      ensures forall i, j :: 0 <= i < j < |impacts| ==> impacts[i].freq < impacts[j].freq
      ensures forall p :: p in added ==>
                (p in impacts <==>
                 forall q :: q in added && q.freq >= p.freq && (if (q.norm < 0) == (p.norm < 0) then q.norm <= p.norm else p.norm < 0)
                             ==> q == p)
    {
      impacts := Competitive();
      forall i, j | 0 <= i < j < |impacts| ensures impacts[i].freq < impacts[j].freq { assert Rising(impacts, i, j); }
      forall p | p in added
        ensures p in impacts <==>
                forall q :: q in added && q.freq >= p.freq && (if (q.norm < 0) == (p.norm < 0) then q.norm <= p.norm else p.norm < 0)
                            ==> q == p
      {
        FrontierMembers(impacts, added, p);
      }
    }

    method Competitive() returns (impacts: seq<Impact>)
      requires Valid()
      ensures IsFrontier(impacts, added)
    {
      impacts := TableRecords(maxFreqs[..], added);
      assert ByteNorms(added) + OtherNorms(added) == added;
      if otherFreqNormPairs == [] {
        NoOthers(impacts);
        return;
      }
      impacts := AddEntries(otherFreqNormPairs, impacts, OtherNorms(added), ByteNorms(added));
    }

    /** The consistency test made after every change: it passes exactly if every accumulated pair
        outside the table has one of positive frequency that is not above it in norm. */
    method AssertConsistent() returns (ok: bool)
      requires Valid()
      ensures ok <==> AllAnchored(OtherNorms(added))
    {
      var prevFreq, prevNorm := 0, 0;
      for i := 0 to |otherFreqNormPairs|
        invariant i == 0 ==> prevFreq == 0 && prevNorm == 0
        invariant i > 0 ==> prevFreq == otherFreqNormPairs[i - 1].freq > 0 && prevNorm == Unsigned(otherFreqNormPairs[i - 1].norm)
        invariant forall j :: 0 <= j < i ==> otherFreqNormPairs[j].freq > 0
      {
        var impact := otherFreqNormPairs[i];
        assert i > 0 ==> Rising(otherFreqNormPairs, i - 1, i);
        assert impact in OtherNorms(added);
        if IsByte(impact.norm) || prevFreq >= impact.freq || prevNorm >= Unsigned(impact.norm) {
          FirstNotAnchored(otherFreqNormPairs, OtherNorms(added));
          return false;
        }
        prevFreq, prevNorm := impact.freq, Unsigned(impact.norm);
      }
      MembersAnchor(otherFreqNormPairs, OtherNorms(added));
      ok := true;
    }

    lemma NoOthers(impacts: seq<Impact>)
      requires Valid() && otherFreqNormPairs == [] && IsFrontier(impacts, ByteNorms(added))
      ensures IsFrontier(impacts, added)
    {
      forall p | p in added ensures IsByte(p.norm) {
        assert Covered(otherFreqNormPairs, p) <==> false;
        assert p in OtherNorms(added) ==> Covered(otherFreqNormPairs, p);
      }
      assert ByteNorms(added) == added;
    }
  }

  lemma OthersStep(pairs: set<Impact>, p: Impact)
    ensures OtherNorms(pairs + {p}) == if IsByte(p.norm) then OtherNorms(pairs) else OtherNorms(pairs) + {p}
  {
  }

  lemma TableEmpty(a: seq<int>)
    requires |a| == 256 && forall i :: 0 <= i < 256 ==> a[i] == 0
    ensures TableOk(a, {})
  {
  }

  lemma TableAdds(a: seq<int>, b: seq<int>, pairs: set<Impact>, p: Impact)
    requires TableOk(a, pairs) && KeptPair(p) && IsByte(p.norm)
    requires b == a[Index(p.norm) := if a[Index(p.norm)] > p.freq then a[Index(p.norm)] else p.freq]
    ensures TableOk(b, pairs + {p})
  {
    forall i: nat | i < 256 ensures SlotOk(b, i, pairs + {p}) { assert SlotOk(a, i, pairs); }
  }

  lemma TableIgnores(a: seq<int>, pairs: set<Impact>, p: Impact)
    requires TableOk(a, pairs) && !IsByte(p.norm)
    ensures TableOk(a, pairs + {p})
  {
    forall i: nat | i < 256 ensures SlotOk(a, i, pairs + {p}) { assert SlotOk(a, i, pairs); }
  }

  lemma TableMerges(a: seq<int>, b: seq<int>, c: seq<int>, left: set<Impact>, right: set<Impact>)
    requires TableOk(a, left) && TableOk(b, right) && |c| == 256
    requires forall i :: 0 <= i < 256 ==> c[i] == if a[i] > b[i] then a[i] else b[i]
    ensures TableOk(c, left + right)
  {
    forall i: nat | i < 256 ensures SlotOk(c, i, left + right) {
      assert SlotOk(a, i, left) && SlotOk(b, i, right);
    }
  }

  // ----- whole runs

  /** What of a list of pairs is accumulated. */
  ghost function PairsOf(xs: seq<Impact>): set<Impact> { set p | p in xs && KeptPair(p) }

  method Feed(acc: CompetitiveImpactAccumulator, xs: seq<Impact>)
    requires acc.Valid() && forall i :: 0 <= i < |xs| ==> WellFormed(xs[i])
    modifies acc, acc.maxFreqs
    ensures acc.Valid() && acc.added == old(acc.added) + PairsOf(xs)
  {
    for i := 0 to |xs|
      invariant acc.Valid() && acc.added == old(acc.added) + PairsOf(xs[..i])
    {
      assert PairsOf(xs[..i + 1]) == PairsOf(xs[..i]) + if KeptPair(xs[i]) then {xs[i]} else {} by {
        assert xs[..i + 1] == xs[..i] + [xs[i]];
      }
      acc.Add(xs[i].freq, xs[i].norm);
    }
    assert xs[..|xs|] == xs;
  }

  /** However pairs are ordered, repeated or split between accumulators that are merged
      later, the result is the same list. */
  method SplitRuns(all: seq<Impact>, left: seq<Impact>, right: seq<Impact>) returns (whole: seq<Impact>, merged: seq<Impact>)
    requires forall i :: 0 <= i < |all| ==> WellFormed(all[i])
    requires (forall i :: 0 <= i < |left| ==> WellFormed(left[i])) && forall i :: 0 <= i < |right| ==> WellFormed(right[i])
    requires forall p :: p in all <==> p in left || p in right
    ensures whole == merged && IsFrontier(whole, set p | p in all && (-128 <= p.norm <= 127 ==> p.freq >= 1))
  {
    var one := new CompetitiveImpactAccumulator();
    Feed(one, all);
    whole := one.GetCompetitiveFreqNormPairs();
    var first := new CompetitiveImpactAccumulator();
    var second := new CompetitiveImpactAccumulator();
    Feed(first, left);
    Feed(second, right);
    first.AddAll(second);
    merged := first.GetCompetitiveFreqNormPairs();
    assert PairsOf(all) == PairsOf(left) + PairsOf(right);
    FrontierUnique(whole, merged, PairsOf(all));
    assert PairsOf(all) == set p | p in all && (-128 <= p.norm <= 127 ==> p.freq >= 1);
  }
}
