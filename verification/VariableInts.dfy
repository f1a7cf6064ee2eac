/** Variable-length integers and strings read back: where their written form lies, they are
    read, up to its end. */
module VariableInts {
  import Terms
  import opened Arithmetic
  import opened ByteStreams

  /** x shifted left by n bits, without a width. */
  function Scaled(x: nat, n: nat): nat {
    if n == 0 then x else 2 * Scaled(x, n - 1)
  }

  lemma {:induction false} ScaledSum(x: nat, y: nat, n: nat)
    ensures Scaled(x + y, n) == Scaled(x, n) + Scaled(y, n)
  {
    if n > 0 { ScaledSum(x, y, n - 1); }
  }

  lemma {:induction false} ScaledMore(x: nat, m: nat, n: nat)
    ensures Scaled(Scaled(x, m), n) == Scaled(x, m + n)
  {
    if n > 0 { ScaledMore(x, m, n - 1); }
  }

  lemma {:induction false} ScaledOne(n: nat)
    ensures Scaled(1, n) == Pow2(n)
  {
    if n > 0 { ScaledOne(n - 1); }
  }

  lemma {:induction false} ScaledRises(x: nat, y: nat, n: nat)
    requires x <= y
    ensures Scaled(x, n) <= Scaled(y, n)
  {
    if n > 0 { ScaledRises(x, y, n - 1); }
  }

  /** Seven bits more are a factor of 128. */
  lemma {:induction false} SevenBits(x: nat, n: nat)
    ensures Scaled(x, n + 7) == Scaled(128 * x, n)
  {
    ScaledMore(x, 7, n);
    assert Scaled(x, 7) == 2 * Scaled(x, 6) == 4 * Scaled(x, 5) == 8 * Scaled(x, 4) == 16 * Scaled(x, 3);
    assert Scaled(x, 3) == 2 * Scaled(x, 2) == 4 * Scaled(x, 1) == 8 * Scaled(x, 0);
  }

  lemma {:induction false} ShiftLeftIs(x: nat, n: nat)
    requires Scaled(x, n) < 0x1_0000_0000
    ensures ShiftLeft(x, n) == Scaled(x, n)
    decreases n
  {
    if n > 0 {
      ScaledMore(x, 1, n - 1);
      assert Scaled(x, 1) == 2 * x;
      ScaledBelow(2 * x, n - 1);
      ShiftLeftIs(2 * x, n - 1);
    }
  }

  lemma {:induction false} ScaledBelow(x: nat, n: nat)
    ensures x <= Scaled(x, n)
  {
    if n > 0 { ScaledBelow(x, n - 1); }
  }

  /** Bits above all others are added. */
  lemma {:induction false} OrAbove(low: nat, x: nat, n: nat)
    requires low < Pow2(n)
    ensures Or(low, Scaled(x, n)) == low + Scaled(x, n)
    decreases n
  {
    if n > 0 && low > 0 && Scaled(x, n) > 0 { OrAbove(low / 2, x, n - 1); }
  }

  /** One more seven-bit group of a number below 2^32. */
  lemma GroupAdds(acc: nat, r: nat, low: nat, high: nat, shift: nat)
    requires r == low + 128 * high > 0 && low < 128
    requires acc < Pow2(shift) && acc + Scaled(r, shift) < 0x1_0000_0000
    ensures OrShifted(acc, low, shift) == acc + Scaled(low, shift) < Pow2(shift + 7)
    ensures Scaled(r, shift) == Scaled(low, shift) + Scaled(high, shift + 7)
  {
    SevenBits(high, shift);
    ScaledSum(low, 128 * high, shift);
    FitsShift(r, shift);
    ShiftLeftIs(low, shift);
    OrAbove(acc, low, shift);
    GroupFits(acc, low, shift);
  }

  lemma {:induction false} FitsShift(r: nat, shift: nat)
    requires r > 0 && Scaled(r, shift) < 0x1_0000_0000
    ensures shift < 32 && shift % 32 == shift
  {
    ScaledRises(1, r, shift);
    ScaledOne(shift);
    if shift >= 32 { ThirtyTwoAtLeast(shift); }
  }

  lemma {:induction false} GroupFits(acc: nat, low: nat, shift: nat)
    requires acc < Pow2(shift) && low < 128
    ensures acc + Scaled(low, shift) < Pow2(shift + 7)
  {
    ScaledOne(shift);
    ScaledSum(1, low, shift);
    ScaledRises(1 + low, 128, shift);
    SevenBits(1, shift);
    ScaledOne(shift + 7);
  }

  ghost predicate LiesAt(b: Bytes, p: nat, part: Bytes) {
    p + |part| <= |b| && b[p..p + |part|] == part
  }

  lemma FirstOf(b: Bytes, p: nat, x: Terms.byte, rest: Bytes)
    requires LiesAt(b, p, [x] + rest)
    ensures p < |b| && b[p] == x && LiesAt(b, p + 1, rest)
  {
    var part := [x] + rest;
    assert b[p] == b[p..p + |part|][0];
    assert b[p + 1..p + 1 + |rest|] == b[p..p + |part|][1..] == rest;
  }

  lemma {:induction false} LastGroup(b: Bytes, p: nat, shift: nat, acc: nat)
    requires p < |b| && b[p] < 128
    ensures VIntAt(b, p, shift, acc) == Ok((OrShifted(acc, b[p], shift), p + 1))
  {
    assert b[p] % 128 == b[p];
  }

  lemma MoreGroups(b: Bytes, p: nat, shift: nat, acc: nat, low: nat)
    requires p < |b| && b[p] == low + 128 && low < 128
    ensures VIntAt(b, p, shift, acc) == VIntAt(b, p + 1, shift + 7, OrShifted(acc, low, shift))
  {
    assert b[p] % 128 == low;
  }

  /** Reading on where the rest r of a number lies adds it, shifted. */
  lemma {:induction false} VIntReadsOn(b: Bytes, p: nat, shift: nat, acc: nat, r: nat)
    requires LiesAt(b, p, VInt(r)) && r > 0 && acc < Pow2(shift) && acc + Scaled(r, shift) < 0x1_0000_0000
    ensures p <= |b| && VIntAt(b, p, shift, acc) == Ok((acc + Scaled(r, shift), p + |VInt(r)|))
    decreases r
  {
    if r < 128 {
      GroupAdds(acc, r, r, 0, shift);
      FirstOf(b, p, r, []);
      LastGroup(b, p, shift, acc);
      assert |VInt(r)| == 1;
    } else {
      var low, high := r % 128, r / 128;
      GroupAdds(acc, r, low, high, shift);
      FirstOf(b, p, low + 128, VInt(high));
      MoreGroups(b, p, shift, acc, low);
      VIntReadsOn(b, p + 1, shift + 7, acc + Scaled(low, shift), high);
      assert |VInt(r)| == 1 + |VInt(high)|;
    }
  }

  /** Where the writer's form of a number below 2^32 lies, that number is read. */
  lemma {:induction false} VIntReads(b: Bytes, p: nat, n: nat)
    requires LiesAt(b, p, VInt(n)) && n < 0x1_0000_0000
    ensures p < |b| && FirstVInt(b, p) == Ok((n, p + |VInt(n)|))
  {
    if n < 128 {
      FirstOf(b, p, n, []);
      assert |VInt(n)| == 1;
    } else {
      var low, high := n % 128, n / 128;
      FirstOf(b, p, low + 128, VInt(high));
      assert b[p] % 128 == low;
      GroupAdds(0, n, low, high, 0);
      assert Scaled(n, 0) == n && Scaled(low, 0) == low;
      VIntReadsOn(b, p + 1, 7, low, high);
      assert |VInt(n)| == 1 + |VInt(high)|;
    }
  }

  /** Where the writer's form of a string lies, that string is read. */
  lemma StringReads(lossy: Bytes -> Bytes, b: Bytes, p: nat, s: Bytes, q: nat)
    requires LiesAt(b, p, StringBytes(s)) && |s| < 0x8000_0000 && q == p + |StringBytes(s)|
    ensures SpelledAt(lossy, b, p, lossy(s), q)
  {
    var v := VInt(|s|);
    assert b[p..p + |v|] == b[p..q][..|v|] && b[p + |v|..q] == b[p..q][|v|..];
    VIntReads(b, p, |s|);
  }

  // ----- what is written

  lemma {:induction false} SevenMore(k: nat)
    ensures Pow2(k + 7) == 128 * Pow2(k)
  {
    assert Pow2(k + 7) == 2 * Pow2(k + 6) == 4 * Pow2(k + 5) == 8 * Pow2(k + 4) == 16 * Pow2(k + 3);
    assert Pow2(k + 3) == 2 * Pow2(k + 2) == 4 * Pow2(k + 1) == 8 * Pow2(k);
  }

  /** Byte k of a written number holds its bits from 7 k on, and a mark unless it is last. */
  lemma {:induction false} VIntByte(n: nat, k: nat)
    requires k < |VInt(n)|
    ensures VInt(n)[k] % 128 == n / Pow2(7 * k) % 128 && (VInt(n)[k] >= 128 <==> k < |VInt(n)| - 1)
    decreases k
  {
    if n >= 128 && k > 0 {
      VIntByte(n / 128, k - 1);
      SevenMore(7 * (k - 1));
      DivDiv(n, 128, Pow2(7 * (k - 1)));
      assert VInt(n)[k] == VInt(n / 128)[k - 1];
    }
  }

  /** It has no more bytes than it needs. */
  lemma {:induction false} VIntSize(n: nat)
    ensures n < Pow2(7 * |VInt(n)|) && (n >= 128 ==> Pow2(7 * (|VInt(n)| - 1)) <= n)
    decreases n
  {
    SevenMore(0);
    if n >= 128 {
      var m := |VInt(n / 128)|;
      VIntSize(n / 128);
      SevenMore(7 * m);
      SevenMore(7 * (m - 1));
      assert |VInt(n)| == m + 1;
    }
  }

  // ----- what is read, of any bytes

  lemma {:induction false} OrBits(a: nat, b: nat, k: nat)
    ensures Bit(Or(a, b), k) == (Bit(a, k) || Bit(b, k))
    decreases a + b
  {
    ZeroBits(k);
    if a > 0 && b > 0 && k > 0 { OrBits(a / 2, b / 2, k - 1); }
  }

  lemma {:induction false} ShiftBits(x: nat, n: nat, k: nat)
    requires x < 0x1_0000_0000
    ensures Bit(ShiftLeft(x, n), k) == (n <= k < 32 && Bit(x, k - n))
    decreases n
  {
    ThirtyTwoBits(0);
    if n == 0 {
      if k >= 32 { SmallBits(x, 32, k); }
    } else {
      var y := 2 * x % 0x1_0000_0000;
      ShiftBits(y, n - 1, k);
      if n - 1 <= k < 32 { CutBits(2 * x, 32, y, 2 * x / 0x1_0000_0000, k - (n - 1)); }
    }
  }

  /** Byte i of an integer that starts at first sets bit k: the distance wraps at 32. */
  ghost predicate SetBy(b: Bytes, first: nat, i: nat, k: nat)
    requires first <= i < |b|
  {
    var distance := 7 * (i - first) % 32;
    distance <= k < 32 && Bit(b[i] % 128, k - distance)
  }

  ghost predicate SetIn(b: Bytes, first: nat, lo: nat, hi: nat, k: nat)
    requires first <= lo && hi <= |b|
  {
    exists i: nat :: lo <= i < hi && SetBy(b, first, i, k)
  }

  lemma {:induction false} GroupBits(b: Bytes, first: nat, p: nat, shift: nat, acc: nat, k: nat)
    requires first <= p < |b| && shift == 7 * (p - first)
    ensures Bit(OrShifted(acc, b[p] % 128, shift), k) == (Bit(acc, k) || SetBy(b, first, p, k))
  {
    OrBits(acc, ShiftLeft(b[p] % 128, shift % 32), k);
    ShiftBits(b[p] % 128, shift % 32, k);
  }

  lemma {:induction false} ReadBits(b: Bytes, first: nat, p: nat, shift: nat, acc: nat, k: nat)
    requires first <= p <= |b| && shift == 7 * (p - first) && VIntAt(b, p, shift, acc).Ok?
    ensures var r := VIntAt(b, p, shift, acc).value;
            Bit(r.0, k) == (Bit(acc, k) || SetIn(b, first, p, r.1, k))
    decreases |b| - p
  {
    GroupBits(b, first, p, shift, acc, k);
    var q := VIntAt(b, p, shift, acc).value.1;
    if b[p] >= 128 {
      ReadBits(b, first, p + 1, shift + 7, OrShifted(acc, b[p] % 128, shift), k);
      assert SetIn(b, first, p, q, k) <==> SetBy(b, first, p, k) || SetIn(b, first, p + 1, q, k);
    } else {
      assert SetIn(b, first, p, q, k) <==> SetBy(b, first, p, k);
    }
  }

  lemma {:induction false} ReadEnds(b: Bytes, p: nat, shift: nat, acc: nat)
    requires p <= |b|
    ensures var r := VIntAt(b, p, shift, acc);
            if r.Ok? then b[r.value.1 - 1] < 128 && forall i :: p <= i < r.value.1 - 1 ==> b[i] >= 128
            else forall i :: p <= i < |b| ==> b[i] >= 128
    decreases |b| - p
  {
    if p < |b| && b[p] >= 128 { ReadEnds(b, p + 1, shift + 7, OrShifted(acc, b[p] % 128, shift)); }
  }

  /** Whatever the bytes: an integer ends at the first byte without a mark, and is missing
      exactly if there is none. Its bits are those that its bytes set. */
  lemma {:induction false} VIntMeaning(b: Bytes, p: nat, k: nat)
    requires p < |b|
    ensures var r := FirstVInt(b, p);
            if r.Ok? then
              && b[r.value.1 - 1] < 128 && (forall i :: p <= i < r.value.1 - 1 ==> b[i] >= 128)
              && (Bit(r.value.0, k) <==> exists i: nat :: p <= i < r.value.1 && SetBy(b, p, i, k))
            else forall i :: p <= i < |b| ==> b[i] >= 128
  {
    FirstBits(b, p, k);
    if b[p] >= 128 {
      ReadEnds(b, p + 1, 7, b[p] % 128);
      if FirstVInt(b, p).Ok? {
        ReadBits(b, p, p + 1, 7, b[p] % 128, k);
        var q := FirstVInt(b, p).value.1;
        assert SetIn(b, p, p, q, k) <==> SetBy(b, p, p, k) || SetIn(b, p, p + 1, q, k);
      }
    } else {
      assert SetIn(b, p, p, p + 1, k) <==> SetBy(b, p, p, k);
    }
  }

  lemma {:induction false} FirstBits(b: Bytes, p: nat, k: nat)
    requires p < |b|
    ensures Bit(b[p] % 128, k) == SetBy(b, p, p, k)
  {
    SevenMore(0);
    if k >= 32 { SmallBits(b[p] % 128, 7, k); }
  }
}
