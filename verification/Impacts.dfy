/** Pairs of a frequency and a norm that may produce competitive scores: a higher
    frequency and a lower norm, read as an unsigned number, never score less. */
module Impacts {

  datatype Impact = Impact(freq: int, norm: int)

  const TWO64: int := 0x1_0000_0000_0000_0000

  /** The norm, a 64-bit integer, read as unsigned. */
  function Unsigned(norm: int): (u: int)
    ensures InI64(norm) ==> 0 <= u < 0x1_0000_0000_0000_0000 && (u - norm) % 0x1_0000_0000_0000_0000 == 0
  {
    if norm < 0 then norm + TWO64 else norm
  }

  predicate InI64(norm: int) { -0x8000_0000_0000_0000 <= norm < 0x8000_0000_0000_0000 }

  predicate WellFormed(p: Impact) { InI64(p.norm) }

  /** The order of impacts: by frequency, then by descending unsigned norm. */
  predicate Less(a: Impact, b: Impact) {
    a.freq < b.freq || (a.freq == b.freq && Unsigned(b.norm) < Unsigned(a.norm))
  }

  predicate Dominates(q: Impact, p: Impact) {
    q.freq >= p.freq && Unsigned(q.norm) <= Unsigned(p.norm)
  }

  /** Strictly increasing in frequency and in unsigned norm. */
  ghost predicate Chain(s: seq<Impact>) {
    forall i: nat, j: nat :: i < j < |s| ==> Rising(s, i, j)
  }

  predicate Rising(s: seq<Impact>, i: nat, j: nat)
    requires i < |s| && j < |s|
  {
    s[i].freq < s[j].freq && Unsigned(s[i].norm) < Unsigned(s[j].norm)
  }

  /** Some member of s dominates p. */
  ghost predicate Covered(s: seq<Impact>, p: Impact) {
    exists k: nat :: k < |s| && Dominates(s[k], p)
  }

  ghost predicate AllWellFormed(pairs: set<Impact>) {
    forall p :: p in pairs ==> WellFormed(p)
  }

  /** s is the competitive part of the pairs, in order. */
  ghost predicate IsFrontier(s: seq<Impact>, pairs: set<Impact>) {
    && Chain(s)
    && (forall k: nat :: k < |s| ==> s[k] in pairs)
    && (forall p {:trigger Covered(s, p)} :: p in pairs ==> Covered(s, p))
  }

  // ----- what a frontier is

  lemma UnsignedInjective(a: int, b: int)
    requires InI64(a) && InI64(b) && Unsigned(a) == Unsigned(b)
    ensures a == b
  {
  }

  /** Read as unsigned, norms of one sign keep their order and negative ones come last. */
  lemma UnsignedOrder(a: int, b: int)
    requires InI64(a) && InI64(b)
    ensures Unsigned(a) <= Unsigned(b) <==> if (a < 0) == (b < 0) then a <= b else b < 0
  {
  }

  /** No pair dominates two members of a chain, or a member another one. */
  lemma ChainDominated(s: seq<Impact>, i: nat, j: nat)
    requires Chain(s) && i < |s| && j < |s| && Dominates(s[i], s[j])
    ensures i == j
  {
    assert i < j ==> Rising(s, i, j);
    assert j < i ==> Rising(s, j, i);
  }

  /** The list holds exactly the pairs that no other pair dominates: none with a frequency
      no smaller and a norm no larger, where a negative norm is above all others. */
  lemma FrontierMembers(s: seq<Impact>, pairs: set<Impact>, p: Impact)
    requires IsFrontier(s, pairs) && AllWellFormed(pairs) && p in pairs
    ensures p in s <==>
            forall q :: q in pairs && q.freq >= p.freq && (if (q.norm < 0) == (p.norm < 0) then q.norm <= p.norm else p.norm < 0) ==> q == p
  {
    forall q | q in pairs
      ensures Dominates(q, p) <==> q.freq >= p.freq && if (q.norm < 0) == (p.norm < 0) then q.norm <= p.norm else p.norm < 0
    {
      UnsignedOrder(q.norm, p.norm);
    }
    NotDominated(s, pairs, p);
  }

  lemma NotDominated(s: seq<Impact>, pairs: set<Impact>, p: Impact)
    requires IsFrontier(s, pairs) && AllWellFormed(pairs) && p in pairs
    ensures p in s <==> forall q :: q in pairs && Dominates(q, p) ==> q == p
  {
    if p in s {
      var i: nat :| i < |s| && s[i] == p;
      forall q | q in pairs && Dominates(q, p) ensures q == p {
        assert Covered(s, q);
        var k: nat :| k < |s| && Dominates(s[k], q);
        ChainDominated(s, k, i);
        UnsignedInjective(p.norm, q.norm);
      }
    } else {
      assert Covered(s, p);
      var k: nat :| k < |s| && Dominates(s[k], p);
      assert s[k] in pairs && s[k] != p;
    }
  }

  /** The list depends on the set of pairs only, not on how it was accumulated. */
  lemma FrontierUnique(s: seq<Impact>, t: seq<Impact>, pairs: set<Impact>)
    requires IsFrontier(s, pairs) && IsFrontier(t, pairs) && AllWellFormed(pairs)
    ensures s == t
  {
    forall p | p in s ensures p in t {
      NotDominated(s, pairs, p);
      NotDominated(t, pairs, p);
    }
    forall p | p in t ensures p in s {
      NotDominated(s, pairs, p);
      NotDominated(t, pairs, p);
    }
    ChainsEqual(s, t);
  }

  lemma {:induction false} ChainsEqual(s: seq<Impact>, t: seq<Impact>)
    requires Chain(s) && Chain(t) && (forall p :: p in s ==> p in t) && (forall p :: p in t ==> p in s)
    ensures s == t
    decreases |s|
  {
    assert (s == [] || s[0] in t) && (t == [] || t[0] in s);
    if s != [] && t != [] {
      SameFirst(s, t);
      forall p | p in s[1..] ensures p in t[1..] { TailMember(s, t, p); }
      forall p | p in t[1..] ensures p in s[1..] { TailMember(t, s, p); }
      ChainTail(s);
      ChainTail(t);
      ChainsEqual(s[1..], t[1..]);
      assert s == [s[0]] + s[1..] && t == [t[0]] + t[1..];
    }
  }

  lemma ChainTail(s: seq<Impact>)
    requires Chain(s) && s != []
    ensures Chain(s[1..])
  {
    forall i: nat, j: nat | i < j < |s[1..]| ensures Rising(s[1..], i, j) {
      assert Rising(s, i + 1, j + 1);
    }
  }

  lemma SameFirst(s: seq<Impact>, t: seq<Impact>)
    requires Chain(s) && Chain(t) && s != [] && t != []
    requires (forall p :: p in s ==> p in t) && (forall p :: p in t ==> p in s)
    ensures s[0] == t[0]
  {
    assert s[0] in t && t[0] in s;
    var i: nat :| i < |s| && s[i] == t[0];
    var j: nat :| j < |t| && t[j] == s[0];
    assert 0 < i ==> Rising(s, 0, i);
    assert 0 < j ==> Rising(t, 0, j);
  }

  lemma TailMember(s: seq<Impact>, t: seq<Impact>, p: Impact)
    requires Chain(s) && s != [] && t != [] && s[0] == t[0] && p in s[1..] && p in t
    ensures p in t[1..]
  {
    var i: nat :| i < |s[1..]| && s[1..][i] == p;
    assert Rising(s, 0, i + 1);
    var j: nat :| j < |t| && t[j] == p;
    assert t[1..][j - 1] == p;
  }

  lemma CoveredTrans(s: seq<Impact>, t: seq<Impact>, p: Impact)
    requires Covered(t, p) && forall k: nat :: k < |t| ==> Covered(s, t[k])
    ensures Covered(s, p)
  {
    var k: nat :| k < |t| && Dominates(t[k], p);
    assert Covered(s, t[k]);
  }

  // ----- scores

  function Members(s: seq<Impact>): set<Impact> { set p | p in s }

  /** A score that no lower frequency and no higher norm raises, a negative norm being
      above all others. */
  ghost predicate Monotone(score: Impact -> real) {
    forall q: Impact, p: Impact {:trigger score(q), score(p)} ::
      q.freq >= p.freq && (if (q.norm < 0) == (p.norm < 0) then q.norm <= p.norm else p.norm < 0) ==> score(q) >= score(p)
  }

  ghost predicate IsMaxScore(score: Impact -> real, pairs: set<Impact>, m: real) {
    (exists p :: p in pairs && score(p) == m) && (forall p :: p in pairs ==> score(p) <= m)
  }

  lemma BestKept(score: Impact -> real, s: seq<Impact>, pairs: set<Impact>, p: Impact) returns (q: Impact)
    requires Monotone(score) && IsFrontier(s, pairs) && AllWellFormed(pairs) && p in pairs
    ensures q in Members(s) && q in pairs && score(q) >= score(p)
  {
    assert Covered(s, p);
    var k: nat :| k < |s| && Dominates(s[k], p);
    q := s[k];
    UnsignedOrder(q.norm, p.norm);
  }

  /** The best score over the competitive pairs is the best score over all pairs. */
  lemma MaxScoreKept(score: Impact -> real, s: seq<Impact>, pairs: set<Impact>, m: real)
    requires Monotone(score) && IsFrontier(s, pairs) && AllWellFormed(pairs)
    ensures IsMaxScore(score, Members(s), m) <==> IsMaxScore(score, pairs, m)
  {
    if IsMaxScore(score, pairs, m) {
      var p :| p in pairs && score(p) == m;
      var q := BestKept(score, s, pairs, p);
      assert score(q) == m;
    }
    if IsMaxScore(score, Members(s), m) {
      forall p | p in pairs ensures score(p) <= m {
        var q := BestKept(score, s, pairs, p);
      }
    }
  }

  // ----- adding one pair to a frontier

  /** How many members come before e in the order. */
  function LowerBound(s: seq<Impact>, e: Impact): (i: nat)
    ensures i <= |s|
    ensures forall k :: 0 <= k < i ==> Less(s[k], e)
    ensures i < |s| ==> !Less(s[i], e)
  {
    if s == [] || !Less(s[0], e) then 0 else
      var r := LowerBound(s[1..], e);
      assert forall k :: 0 < k <= r ==> s[k] == s[1..][k - 1];
      1 + r
  }

  /** Walks back over the members whose norm is no lower. */
  method FirstToRemove(e: Impact, s: seq<Impact>, next: nat) returns (lo: nat)
    requires next <= |s|
    ensures lo <= next
    ensures forall k :: lo <= k < next ==> Unsigned(s[k].norm) >= Unsigned(e.norm)
    ensures lo > 0 ==> Unsigned(s[lo - 1].norm) < Unsigned(e.norm)
  {
    lo := next;
    while lo > 0 && Unsigned(s[lo - 1].norm) >= Unsigned(e.norm)
      invariant 0 <= lo <= next
      invariant forall k :: lo <= k < next ==> Unsigned(s[k].norm) >= Unsigned(e.norm)
    {
      lo := lo - 1;
    }
  }

  /** Adds a pair unless a member dominates it, and drops the members it dominates. */
  method AddEntry(e: Impact, s: seq<Impact>, ghost pairs: set<Impact>) returns (r: seq<Impact>)
    requires IsFrontier(s, pairs)
    ensures IsFrontier(r, pairs + {e})
  {
    var next := LowerBound(s, e);
    if next < |s| && Unsigned(s[next].norm) <= Unsigned(e.norm) {
      FrontierKeeps(s, pairs, e, next);
      return s;
    }
    var firstToRemove := FirstToRemove(e, s, next);
    r := Replaced(s, e, firstToRemove, next);
    FrontierReplaces(s, pairs, e, firstToRemove, next);
  }

  lemma FrontierKeeps(s: seq<Impact>, pairs: set<Impact>, e: Impact, k: nat)
    requires IsFrontier(s, pairs) && k < |s| && !Less(s[k], e) && Unsigned(s[k].norm) <= Unsigned(e.norm)
    ensures IsFrontier(s, pairs + {e})
  {
    assert Dominates(s[k], e);
  }

  function Replaced(s: seq<Impact>, e: Impact, lo: nat, hi: nat): (r: seq<Impact>)
    requires lo <= hi <= |s|
    ensures |r| == lo + 1 + |s| - hi && r[lo] == e
    ensures forall k :: 0 <= k < lo ==> r[k] == s[k]
    ensures forall k :: lo < k < |r| ==> r[k] == s[k - lo - 1 + hi]
  {
    s[..lo] + [e] + s[hi..]
  }

  lemma CoverReplaces(s: seq<Impact>, e: Impact, lo: nat, hi: nat, p: Impact)
    requires lo <= hi <= |s| && (p == e || Covered(s, p))
    requires forall k :: lo <= k < hi ==> Dominates(e, s[k])
    ensures Covered(Replaced(s, e, lo, hi), p)
  {
    var r := Replaced(s, e, lo, hi);
    if p == e {
      assert Dominates(r[lo], p);
    } else {
      var k: nat :| k < |s| && Dominates(s[k], p);
      var k' := if k < lo then k else if k < hi then lo else k - hi + lo + 1;
      assert Dominates(r[k'], p);
    }
  }

  lemma FrontierReplaces(s: seq<Impact>, pairs: set<Impact>, e: Impact, lo: nat, hi: nat)
    requires IsFrontier(s, pairs) && lo <= hi <= |s|
    requires forall k :: 0 <= k < hi ==> Less(s[k], e)
    requires hi < |s| ==> !Less(s[hi], e) && Unsigned(s[hi].norm) > Unsigned(e.norm)
    requires forall k :: lo <= k < hi ==> Unsigned(s[k].norm) >= Unsigned(e.norm)
    requires lo > 0 ==> Unsigned(s[lo - 1].norm) < Unsigned(e.norm)
    ensures IsFrontier(Replaced(s, e, lo, hi), pairs + {e})
  {
    var r := Replaced(s, e, lo, hi);
    ChainReplaces(s, e, lo, hi);
    forall p | p in pairs + {e} ensures Covered(r, p) {
      assert p != e ==> Covered(s, p);
      CoverReplaces(s, e, lo, hi, p);
    }
  }

  lemma ChainReplaces(s: seq<Impact>, e: Impact, lo: nat, hi: nat)
    requires Chain(s) && lo <= hi <= |s|
    requires forall k :: 0 <= k < hi ==> Less(s[k], e)
    requires hi < |s| ==> !Less(s[hi], e) && Unsigned(s[hi].norm) > Unsigned(e.norm)
    requires lo > 0 ==> Unsigned(s[lo - 1].norm) < Unsigned(e.norm)
    ensures Chain(Replaced(s, e, lo, hi))
  {
    var r := Replaced(s, e, lo, hi);
    forall i: nat, j: nat | i < j < |r| ensures Rising(r, i, j) {
      if i < lo {
        assert r[i] == s[i];
        assert i < lo - 1 ==> Rising(s, i, lo - 1);
      }
      if j > lo {
        assert r[j] == s[j - lo - 1 + hi];
        assert hi < j - lo - 1 + hi ==> Rising(s, hi, j - lo - 1 + hi);
      }
      if i != lo && j != lo {
        var i', j' := if i < lo then i else i - lo - 1 + hi, if j < lo then j else j - lo - 1 + hi;
        assert Rising(s, i', j');
        assert r[i] == s[i'] && r[j] == s[j'];
      }
    }
  }
}
