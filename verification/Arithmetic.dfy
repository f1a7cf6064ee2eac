module Arithmetic {
  function Min(a: int, b: int): int { if a < b then a else b }

  function Max(a: int, b: int): int { if a < b then b else a }

  function Pow2(k: nat): (p: nat)
    ensures p > 0
  {
    if k == 0 then 1 else 2 * Pow2(k - 1)
  }

  lemma EightBits(k: nat)
    ensures Pow2(k + 8) == 256 * Pow2(k)
  {
    assert Pow2(k + 4) == 2 * Pow2(k + 3) == 4 * Pow2(k + 2) == 8 * Pow2(k + 1) == 16 * Pow2(k);
    assert Pow2(k + 8) == 2 * Pow2(k + 7) == 4 * Pow2(k + 6) == 8 * Pow2(k + 5) == 16 * Pow2(k + 4);
  }

  lemma ThirtyTwoBits(k: nat)
    ensures Pow2(k + 32) == 0x1_0000_0000 * Pow2(k)
  {
    EightBits(k);
    EightBits(k + 8);
    EightBits(k + 16);
    EightBits(k + 24);
  }

  lemma {:induction false} ThirtyTwoAtLeast(k: nat)
    requires k >= 32
    ensures Pow2(k) >= 0x1_0000_0000
  {
    if k == 32 { ThirtyTwoBits(0); } else { ThirtyTwoAtLeast(k - 1); }
  }

  // ----- bits

  function Bit(w: nat, k: nat): bool {
    if k == 0 then w % 2 == 1 else Bit(w / 2, k - 1)
  }

  lemma DivDiv(n: nat, a: nat, b: nat)
    requires a > 0 && b > 0
    ensures a * b > 0 && n / a / b == n / (a * b)
  {
    var q, r := n / a, n % a;
    Recomposed(n, a, b, q, r, q / b, q % b);
    DivUnique(n, a * b, q / b, a * (q % b) + r);
  }

  lemma Recomposed(n: nat, a: nat, b: nat, q: nat, r: nat, q': nat, r': nat)
    requires n == a * q + r && r < a && q == b * q' + r' && r' < b
    ensures n == a * b * q' + (a * r' + r) && 0 <= a * r' + r < a * b
  {
    assert a * q == a * (b * q') + a * r';
    assert a * (b * q') == a * b * q';
    assert a * r' <= a * (b - 1) == a * b - a;
  }

  lemma DivUnique(n: nat, m: nat, q: nat, r: nat)
    requires r < m && n == m * q + r
    ensures n / m == q
  {
    var d, e := n / m, n % m;
    assert m * (d - q) == m * d - m * q == r - e;
    Multiple(m, d - q);
  }

  lemma Multiple(m: nat, k: int)
    ensures (k >= 1 ==> m * k >= m) && (k <= -1 ==> m * k + m <= 0)
  {
  }

  /** Bit k has weight 2^k. */
  lemma {:induction false} BitIs(w: nat, k: nat)
    ensures Bit(w, k) == (w / Pow2(k) % 2 == 1)
    decreases k
  {
    if k > 0 {
      BitIs(w / 2, k - 1);
      DivDiv(w, 2, Pow2(k - 1));
    }
  }

  lemma {:induction false} ZeroBits(k: nat)
    ensures !Bit(0, k)
  {
    if k > 0 { ZeroBits(k - 1); }
  }

  /** The bits of a sum whose parts do not overlap. */
  lemma {:induction false} SplitBits(x: nat, y: nat, m: nat, t: nat, k: nat)
    requires x < Pow2(m) && t == Pow2(m) * y
    ensures Bit(x + t, k) == if k < m then Bit(x, k) else Bit(y, k - m)
    decreases m
  {
    if m > 0 {
      var half := Pow2(m - 1) * y;
      assert t == 2 * half;
      assert (x + t) / 2 == x / 2 + half && (x + t) % 2 == x % 2;
      if k > 0 { SplitBits(x / 2, y, m - 1, half, k - 1); }
    }
  }

  /** Cutting a number to m bits. */
  lemma {:induction false} CutBits(x: nat, m: nat, low: nat, y: nat, k: nat)
    requires low < Pow2(m) && x == low + Pow2(m) * y
    ensures Bit(low, k) == (k < m && Bit(x, k))
  {
    if k >= m { SmallBits(low, m, k); } else { SplitBits(low, y, m, Pow2(m) * y, k); }
  }

  lemma {:induction false} SmallBits(x: nat, m: nat, k: nat)
    requires x < Pow2(m) && m <= k
    ensures !Bit(x, k)
    decreases m
  {
    if m == 0 { ZeroBits(k); } else { SmallBits(x / 2, m - 1, k - 1); }
  }
}
