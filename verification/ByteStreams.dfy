/** Byte streams: an output that appends, and an input that reads forward and keeps the
    bytes it has read for its checksum. Integers are big-endian, lengths are vints. */
module ByteStreams {
  import Terms

  type Bytes = seq<Terms.byte>

  datatype Result<T> = Ok(value: T) | EndOfFile | Corrupt | TooOld | TooNew | IllegalArgument | IllegalState

  // ----- 32-bit integers

  predicate I32(i: int) { -0x8000_0000 <= i < 0x8000_0000 }

  /** The two's complement bits of an integer, as a number. */
  function AsU32(i: int): (u: nat)
    requires I32(i)
    ensures u < 0x1_0000_0000 && (u - i) % 0x1_0000_0000 == 0
  {
    if i < 0 then i + 0x1_0000_0000 else i
  }

  function AsI32(u: nat): (i: int)
    requires u < 0x1_0000_0000
    ensures I32(i) && AsU32(i) == u
  {
    if u >= 0x8000_0000 then u - 0x1_0000_0000 else u
  }

  /** The four lowest bytes of a number, highest first. */
  function BeBytes(u: nat): (b: Bytes)
    ensures |b| == 4
    ensures b[3] == u % 0x100 && b[2] == u / 0x100 % 0x100 && b[1] == u / 0x1_0000 % 0x100 && b[0] == u / 0x100_0000 % 0x100
  {
    [u / 0x100_0000 % 256, u / 0x1_0000 % 256, u / 0x100 % 256, u % 256]
  }

  function Value(b0: int, b1: int, b2: int, b3: int): int {
    ((b0 * 256 + b1) * 256 + b2) * 256 + b3
  }

  function BeUnsigned(b: Bytes, p: nat): (u: nat)
    requires p + 4 <= |b|
    ensures var b0: int, b1: int, b2: int, b3: int := b[p], b[p + 1], b[p + 2], b[p + 3];
            u == 0x100_0000 * b0 + 0x1_0000 * b1 + 0x100 * b2 + b3 < 0x1_0000_0000
  {
    Value(b[p], b[p + 1], b[p + 2], b[p + 3])
  }

  /** The integer whose four bytes start at p. */
  function BeInt(b: Bytes, p: nat): (i: int)
    requires p + 4 <= |b|
    ensures I32(i)
  {
    AsI32(BeUnsigned(b, p))
  }

  lemma Digits(i: int)
    ensures i == Value(i / 0x100_0000, i / 0x1_0000 % 256, i / 0x100 % 256, i % 256)
  {
    assert i / 0x100 / 0x100 == i / 0x1_0000 && i / 0x1_0000 / 0x100 == i / 0x100_0000;
  }

  /** Base 256 digits are unique. */
  lemma DigitsUnique(a0: int, a1: int, a2: int, a3: int, b0: int, b1: int, b2: int, b3: int)
    requires 0 <= a1 < 256 && 0 <= a2 < 256 && 0 <= a3 < 256 && 0 <= b1 < 256 && 0 <= b2 < 256 && 0 <= b3 < 256
    requires Value(a0, a1, a2, a3) == Value(b0, b1, b2, b3)
    ensures a0 == b0 && a1 == b1 && a2 == b2 && a3 == b3
  {
  }

  /** Four bytes hold a number exactly when they are its big-endian form. */
  lemma BeUnsignedIff(b: Bytes, p: nat, u: nat)
    requires p + 4 <= |b| && u < 0x1_0000_0000
    ensures BeUnsigned(b, p) == u <==> b[p..p + 4] == BeBytes(u)
  {
    Digits(u);
    var slice := b[p..p + 4];
    assert slice == [b[p], b[p + 1], b[p + 2], b[p + 3]];
    if BeUnsigned(b, p) == u {
      DigitsUnique(u / 0x100_0000, u / 0x1_0000 % 256, u / 0x100 % 256, u % 256, b[p], b[p + 1], b[p + 2], b[p + 3]);
    }
    if slice == BeBytes(u) {
      assert slice[0] == u / 0x100_0000 && slice[1] == u / 0x1_0000 % 256 && slice[2] == u / 0x100 % 256 && slice[3] == u % 256;
    }
  }

  lemma BeIntIff(b: Bytes, p: nat, i: int)
    requires p + 4 <= |b| && I32(i)
    ensures BeInt(b, p) == i <==> b[p..p + 4] == BeBytes(AsU32(i))
  {
    BeUnsignedIff(b, p, AsU32(i));
  }

  // ----- variable-length integers and strings

  function VInt(i: nat): Bytes {
    if i < 128 then [i] else [i % 128 + 128] + VInt(i / 128)
  }

  /** A length prefix and the bytes. */
  function StringBytes(s: Bytes): Bytes { VInt(|s|) + s }

  function ShiftLeft(x: nat, n: nat): nat
    decreases n
  {
    if n == 0 then x else ShiftLeft(2 * x % 0x1_0000_0000, n - 1)
  }

  function Or(a: nat, b: nat): nat
    decreases a + b
  {
    if a == 0 then b else if b == 0 then a
    else 2 * Or(a / 2, b / 2) + if a % 2 == 1 || b % 2 == 1 then 1 else 0
  }

  /** Shift distances wrap at 32. */
  function OrShifted(acc: nat, low: nat, shift: nat): nat {
    Or(acc, ShiftLeft(low, shift % 32))
  }

  /** The vint whose next byte is at p, and where it ends. */
  function VIntAt(b: Bytes, p: nat, shift: nat, acc: nat): (r: Result<(nat, nat)>)
    requires p <= |b|
    ensures r.Ok? ==> p < r.value.1 <= |b|
    decreases |b| - p
  {
    if p == |b| then EndOfFile
    else
      var more := OrShifted(acc, b[p] % 128, shift);
      if b[p] >= 128 then VIntAt(b, p + 1, shift + 7, more) else Ok((more, p + 1))
  }

  /** The bytes from p to q are a length and that many bytes, read as the string s. */
  ghost predicate SpelledAt(lossy: Bytes -> Bytes, b: Bytes, p: nat, s: Bytes, q: nat) {
    && p < |b|
    && var r := FirstVInt(b, p);
    && r.Ok? && r.value.0 < 0x8000_0000
    && r.value.1 + r.value.0 == q <= |b|
    && lossy(b[r.value.1..q]) == s
  }

  function FirstVInt(b: Bytes, p: nat): (r: Result<(nat, nat)>)
    requires p < |b|
    ensures r.Ok? ==> p < r.value.1 <= |b|
  {
    if b[p] < 128 then Ok((b[p], p + 1)) else VIntAt(b, p + 1, 7, b[p] % 128)
  }

  class Output {
    var bytes: Bytes
    const checksum: Bytes -> nat

    constructor (checksum: Bytes -> nat)
      ensures bytes == [] && this.checksum == checksum
    {
      bytes, this.checksum := [], checksum;
    }

    method WriteByte(b: Terms.byte)
      modifies this
      ensures bytes == old(bytes) + [b]
    {
      bytes := bytes + [b];
    }

    method WriteBytes(b: Bytes)
      modifies this
      ensures bytes == old(bytes) + b
    {
      bytes := bytes + b;
    }

    method WriteBeInt(i: int)
      requires I32(i)
      modifies this
      ensures bytes == old(bytes) + BeBytes(AsU32(i))
    {
      WriteBytes(BeBytes(AsU32(i)));
    }

    method WriteVInt(n: nat)
      modifies this
      ensures bytes == old(bytes) + VInt(n)
    {
      var i := n;
      while i >= 128
        invariant old(bytes) + VInt(n) == bytes + VInt(i)
      {
        assert bytes + VInt(i) == bytes + [i % 128 + 128] + VInt(i / 128);
        WriteByte(i % 128 + 128);
        i := i / 128;
      }
      WriteByte(i);
    }

    method WriteString(s: Bytes)
      modifies this
      ensures bytes == old(bytes) + StringBytes(s)
    {
      WriteVInt(|s|);
      WriteBytes(s);
    }
  }

  class Input {
    const bytes: Bytes
    const checksum: Bytes -> nat
    /** How invalid UTF-8 is replaced. */
    const lossy: Bytes -> Bytes
    var pos: nat
    var digested: Bytes

    ghost predicate Valid()
      reads this`pos
    {
      pos <= |bytes|
    }

    /** The checksum covers the bytes before the position. */
    ghost predicate Sequential()
      reads this
    {
      pos <= |bytes| && digested == bytes[..pos]
    }

    constructor (bytes: Bytes, checksum: Bytes -> nat, lossy: Bytes -> Bytes)
      ensures this.bytes == bytes && this.checksum == checksum && this.lossy == lossy
      ensures Valid() && Sequential() && pos == 0
    {
      this.bytes, this.checksum, this.lossy, pos, digested := bytes, checksum, lossy, 0, [];
    }

    method ReadByte() returns (r: Result<Terms.byte>)
      requires Valid()
      modifies this
      ensures Valid() && (old(Sequential()) ==> Sequential())
      ensures if old(pos) < |bytes| then r == Ok(bytes[old(pos)]) && pos == old(pos) + 1 else r == EndOfFile && pos == old(pos)
    {
      if pos == |bytes| { return EndOfFile; }
      r := Ok(bytes[pos]);
      digested, pos := digested + [bytes[pos]], pos + 1;
    }

    method ReadBytes(n: nat) returns (r: Result<Bytes>)
      requires Valid()
      modifies this
      ensures Valid() && (old(Sequential()) ==> Sequential())
      ensures if old(pos) + n <= |bytes| then r == Ok(bytes[old(pos)..old(pos) + n]) && pos == old(pos) + n else r == EndOfFile && pos == old(pos)
    {
      if pos + n > |bytes| { return EndOfFile; }
      r := Ok(bytes[pos..pos + n]);
      digested, pos := digested + r.value, pos + n;
    }

    method ReadBeInt() returns (r: Result<int>)
      requires Valid()
      modifies this
      ensures Valid() && (old(Sequential()) ==> Sequential())
      ensures r.Ok? <==> old(pos) + 4 <= |bytes|
      ensures r.Ok? ==> r.value == BeInt(bytes, old(pos)) && pos == old(pos) + 4
    {
      var b := [];
      for i := 0 to 4
        invariant Valid() && (old(Sequential()) ==> Sequential())
        invariant old(pos) + i <= |bytes| && pos == old(pos) + i && b == bytes[old(pos)..pos]
      {
        var x := ReadByte();
        if !x.Ok? { return EndOfFile; }
        b := b + [x.value];
      }
      r := Ok(BeInt(b, 0));
    }

    method ReadVInt() returns (r: Result<nat>)
      requires Valid()
      modifies this
      ensures Valid() && (old(Sequential()) ==> Sequential())
      ensures r.Ok? <==> old(pos) < |bytes| && FirstVInt(bytes, old(pos)).Ok?
      ensures r.Ok? ==> FirstVInt(bytes, old(pos)) == Ok((r.value, pos))
    {
      var b := ReadByte();
      if !b.Ok? { return EndOfFile; }
      var i: nat, shift: nat := b.value % 128, 7;
      while b.value >= 128
        invariant Valid() && (old(Sequential()) ==> Sequential())
        invariant b.Ok? && old(pos) < |bytes|
        invariant FirstVInt(bytes, old(pos)) == if b.value >= 128 then VIntAt(bytes, pos, shift, i) else Ok((i, pos))
        decreases |bytes| - pos, b.value
      {
        b := ReadByte();
        if !b.Ok? { return EndOfFile; }
        i, shift := OrShifted(i, b.value % 128, shift), shift + 7;
      }
      r := Ok(i);
    }

    method ReadString() returns (r: Result<Bytes>)
      requires Valid()
      modifies this
      ensures Valid() && (old(Sequential()) ==> Sequential())
      ensures r.Ok? ==> SpelledAt(lossy, bytes, old(pos), r.value, pos)
      ensures forall s, q :: SpelledAt(lossy, bytes, old(pos), s, q) ==> r == Ok(s) && pos == q
    {
      var n := ReadVInt();
      if !n.Ok? { return EndOfFile; }
      if n.value >= 0x8000_0000 { return IllegalState; }
      var b := ReadBytes(n.value);
      if !b.Ok? { return EndOfFile; }
      r := Ok(lossy(b.value));
    }

    /** Moves without reading. */
    method Seek(to: nat) returns (r: Result<()>)
      modifies this
      ensures if to <= |bytes| then r == Ok(()) && pos == to else r == EndOfFile && pos == old(pos)
    {
      if to > |bytes| { return EndOfFile; }
      pos := to;
      r := Ok(());
    }

    /** Moves forward by reading, so that the checksum sees the bytes passed over. */
    method SkipTo(to: nat) returns (r: Result<()>)
      requires Valid()
      modifies this
      ensures Valid() && (old(Sequential()) ==> Sequential())
      ensures to < old(pos) ==> r == IllegalState && pos == old(pos)
      ensures old(pos) <= to <= |bytes| ==> r == Ok(()) && pos == to
      ensures to > |bytes| ==> r == EndOfFile
    {
      if to < pos { return IllegalState; }
      var left := to - pos;
      while left >= 1024
        invariant Valid() && (old(Sequential()) ==> Sequential())
        invariant left >= 0 && pos + left == to
      {
        var b := ReadBytes(1024);
        if !b.Ok? { return EndOfFile; }
        left := left - 1024;
      }
      if left > 0 {
        var b := ReadBytes(left);
        if !b.Ok? { return EndOfFile; }
      }
      r := Ok(());
    }
  }
}
