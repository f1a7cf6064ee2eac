/** Terms as byte strings, ordered as unsigned bytes, and the runs of consecutive
    terms that share a prefix. */
module Terms {

  type byte = x: int | 0 <= x < 256
  type Term = seq<byte>

  /** The length of the longest common prefix, known to be at least k. */
  function LcpFrom(a: Term, b: Term, k: nat): (l: nat)
    requires k <= |a| && k <= |b|
    ensures k <= l <= |a| && l <= |b|
    decreases |a| - k
  {
    if k == |a| || k == |b| || a[k] != b[k] then k else LcpFrom(a, b, k + 1)
  }

  function Lcp(a: Term, b: Term): (l: nat)
    ensures l <= |a| && l <= |b|
  {
    LcpFrom(a, b, 0)
  }

  /** Lexicographic order on unsigned bytes; a proper prefix comes first. */
  predicate Less(a: Term, b: Term) {
    var l := Lcp(a, b);
    l < |b| && (l == |a| || a[l] < b[l])
  }

  predicate SharesPrefix(a: Term, b: Term, d: nat) {
    d <= |a| && d <= |b| && a[..d] == b[..d]
  }

  predicate Before(ts: seq<Term>, i: nat, j: nat)
    requires i < |ts| && j < |ts|
  {
    Less(ts[i], ts[j])
  }

  predicate Sorted(ts: seq<Term>) {
    forall i: nat, j: nat :: i < j < |ts| ==> Before(ts, i, j)
  }

  lemma {:induction false} LcpFromMeaning(a: Term, b: Term, k: nat)
    requires SharesPrefix(a, b, k)
    ensures var l := LcpFrom(a, b, k); SharesPrefix(a, b, l) && (l < |a| && l < |b| ==> a[l] != b[l])
    decreases |a| - k
  {
    if k < |a| && k < |b| && a[k] == b[k] {
      SharesExtend(a, b, k);
      LcpFromMeaning(a, b, k + 1);
    }
  }

  /** The longest common prefix is shared and cannot be extended. */
  lemma LcpMeaning(a: Term, b: Term)
    ensures var l := Lcp(a, b); SharesPrefix(a, b, l) && (l < |a| && l < |b| ==> a[l] != b[l])
  {
    LcpFromMeaning(a, b, 0);
  }

  /** Two terms share d bytes exactly when their longest common prefix is that long. */
  lemma SharesIffLcp(a: Term, b: Term, d: nat)
    ensures SharesPrefix(a, b, d) <==> d <= Lcp(a, b)
  {
    var l := Lcp(a, b);
    LcpMeaning(a, b);
    if d <= l {
      assert a[..d] == a[..l][..d] == b[..l][..d] == b[..d];
    }
  }

  lemma SharesTrans(a: Term, b: Term, c: Term, d: nat)
    requires SharesPrefix(a, b, d) && SharesPrefix(b, c, d)
    ensures SharesPrefix(a, c, d)
  {
  }

  lemma SharesShorter(a: Term, b: Term, d: nat, e: nat)
    requires SharesPrefix(a, b, d) && e <= d
    ensures SharesPrefix(a, b, e)
  {
    assert a[..e] == a[..d][..e];
    assert b[..e] == b[..d][..e];
  }

  lemma SharesByte(a: Term, b: Term, d: nat, k: nat)
    requires SharesPrefix(a, b, d) && k < d
    ensures a[k] == b[k]
  {
    assert a[k] == a[..d][k] && b[k] == b[..d][k];
  }

  lemma SharesExtend(a: Term, b: Term, d: nat)
    requires SharesPrefix(a, b, d) && d < |a| && d < |b| && a[d] == b[d]
    ensures SharesPrefix(a, b, d + 1)
  {
    assert a[..d + 1] == a[..d] + [a[d]];
    assert b[..d + 1] == b[..d] + [b[d]];
  }

  lemma LcpUnique(a: Term, b: Term, l: nat)
    requires SharesPrefix(a, b, l)
    requires l < |a| && l < |b| ==> a[l] != b[l]
    ensures Lcp(a, b) == l
  {
    SharesIffLcp(a, b, l);
    if l < Lcp(a, b) {
      SharesIffLcp(a, b, l + 1);
      SharesByte(a, b, l + 1, l);
    }
  }

  /** A term is below another exactly if after some common bytes it ends first, or has a
      smaller byte. */
  lemma LessIff(a: Term, b: Term)
    ensures Less(a, b) <==> exists k: nat :: k < |b| && SharesPrefix(a, b, k) && (k == |a| || a[k] < b[k])
  {
    var l := Lcp(a, b);
    LcpMeaning(a, b);
    assert Less(a, b) ==> l < |b| && SharesPrefix(a, b, l) && (l == |a| || a[l] < b[l]);
    forall k: nat | k < |b| && SharesPrefix(a, b, k) && (k == |a| || a[k] < b[k]) ensures k == l { LcpUnique(a, b, k); }
  }

  lemma LessTrans(a: Term, b: Term, c: Term)
    requires Less(a, b) && Less(b, c)
    ensures Less(a, c)
  {
    var l1, l2 := Lcp(a, b), Lcp(b, c);
    LcpMeaning(a, b);
    LcpMeaning(b, c);
    var l := if l1 < l2 then l1 else l2;
    SharesShorter(a, b, l1, l);
    SharesShorter(b, c, l2, l);
    SharesTrans(a, b, c, l);
    if l < l1 { SharesByte(a, b, l1, l); }
    if l < l2 { SharesByte(b, c, l2, l); }
    LcpUnique(a, c, l);
  }

  lemma LessTotal(a: Term, b: Term)
    ensures Less(a, b) || a == b || Less(b, a)
    ensures !(Less(a, b) && Less(b, a)) && !Less(a, a)
  {
    var l := Lcp(a, b);
    LcpMeaning(a, b);
    LcpUnique(b, a, l);
    LcpUnique(a, a, |a|);
    if l == |a| && l == |b| {
      assert a == a[..l] && b == b[..l];
    }
  }

  /** In sorted order, terms sharing d bytes have non-decreasing bytes at d, and
      only the first of them can end there. */
  lemma SortedByte(a: Term, b: Term, d: nat)
    requires Less(a, b) && SharesPrefix(a, b, d)
    ensures d < |b|
    ensures d < |a| ==> a[d] <= b[d]
  {
    SharesIffLcp(a, b, d);
    LcpMeaning(a, b);
    if d < Lcp(a, b) { SharesByte(a, b, Lcp(a, b), d); }
  }

  /** What two terms share, every term between them shares. */
  lemma SharesBetween(a: Term, b: Term, c: Term, d: nat)
    requires a == b || Less(a, b)
    requires b == c || Less(b, c)
    requires SharesPrefix(a, c, d)
    ensures SharesPrefix(a, b, d)
    decreases d
  {
    if d > 0 && a != b && b != c {
      SharesShorter(a, c, d, d - 1);
      SharesBetween(a, b, c, d - 1);
      SharesTrans(b, a, c, d - 1);
      SortedByte(a, b, d - 1);
      SortedByte(b, c, d - 1);
      SharesByte(a, c, d, d - 1);
      SharesExtend(a, b, d - 1);
    }
  }
}
