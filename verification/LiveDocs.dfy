/** The live documents of a segment: one bit a document, packed into 64-bit words between
    a header and a footer. */
module LiveDocs {
  import Terms
  import opened Arithmetic
  import opened ByteStreams
  import opened CodecUtil
  import opened VariableInts

  // ----- bits of a word

  function Ones(w: nat): nat {
    if w == 0 then 0 else w % 2 + Ones(w / 2)
  }

  /** The word whose lowest bits are the bits from lo to hi. */
  function Word(bits: seq<bool>, lo: nat, hi: nat): nat
    requires hi <= |bits|
    decreases hi - lo
  {
    if lo >= hi then 0 else (if bits[lo] then 1 else 0) + 2 * Word(bits, lo + 1, hi)
  }

  function CountTrue(bits: seq<bool>, lo: nat, hi: nat): nat
    requires hi <= |bits|
    decreases hi - lo
  {
    if lo >= hi then 0 else (if bits[lo] then 1 else 0) + CountTrue(bits, lo + 1, hi)
  }

  lemma {:induction false} WordBits(bits: seq<bool>, lo: nat, hi: nat, k: nat)
    requires hi <= |bits|
    ensures Bit(Word(bits, lo, hi), k) == (lo + k < hi && bits[lo + k])
    decreases hi - lo
  {
    if lo >= hi { ZeroBits(k); }
    else if k > 0 { WordBits(bits, lo + 1, hi, k - 1); }
  }

  lemma {:induction false} WordOnes(bits: seq<bool>, lo: nat, hi: nat)
    requires hi <= |bits|
    ensures Ones(Word(bits, lo, hi)) == CountTrue(bits, lo, hi)
    decreases hi - lo
  {
    if lo < hi {
      WordOnes(bits, lo + 1, hi);
      OnesStep(bits[lo], Word(bits, lo + 1, hi), Word(bits, lo, hi));
    }
  }

  lemma {:induction false} OnesStep(bit: bool, rest: nat, w: nat)
    requires w == (if bit then 1 else 0) + 2 * rest
    ensures Ones(w) == (if bit then 1 else 0) + Ones(rest)
  {
    assert w % 2 == (if bit then 1 else 0) && w / 2 == rest;
  }

  lemma {:induction false} WordBound(bits: seq<bool>, lo: nat, hi: nat, n: nat)
    requires hi <= |bits| && hi - lo <= n
    ensures Word(bits, lo, hi) < Pow2(n)
    decreases n
  {
    if lo < hi { WordBound(bits, lo + 1, hi, n - 1); }
    else if n > 0 { WordBound(bits, lo, hi, n - 1); }
  }

  lemma {:induction false} CountSum(bits: seq<bool>, lo: nat, mid: nat, hi: nat)
    requires lo <= mid <= hi <= |bits|
    ensures CountTrue(bits, lo, hi) == CountTrue(bits, lo, mid) + CountTrue(bits, mid, hi)
    decreases mid - lo
  {
    if lo < mid { CountSum(bits, lo + 1, mid, hi); }
  }

  lemma {:induction false} WordStep(bits: seq<bool>, lo: nat, hi: nat, next: nat, n: nat)
    requires lo <= hi < |bits| && next == hi + 1 && n == hi - lo
    ensures Word(bits, lo, next) == Word(bits, lo, hi) + if bits[hi] then Pow2(n) else 0
    decreases n
  {
    if n > 0 { WordStep(bits, lo + 1, hi, next, n - 1); }
  }

  ghost function TrueSet(bits: seq<bool>, lo: nat, hi: nat): set<int>
    requires hi <= |bits|
  {
    set k | lo <= k < hi && bits[k]
  }

  lemma {:induction false} CountIs(bits: seq<bool>, lo: nat, hi: nat)
    requires hi <= |bits|
    ensures CountTrue(bits, lo, hi) == |set k | lo <= k < hi && bits[k]|
    decreases hi - lo
  {
    if lo < hi {
      CountIs(bits, lo + 1, hi);
      assert TrueSet(bits, lo, hi) == (if bits[lo] then {lo} else {}) + TrueSet(bits, lo + 1, hi);
    } else {
      assert TrueSet(bits, lo, hi) == {};
    }
  }

  /** A number is the word of its bits. */
  lemma {:induction false} WordOfBits(bits: seq<bool>, lo: nat, n: nat, w: nat)
    requires lo + n <= |bits| && w < Pow2(n) && forall k: nat :: k < n ==> bits[lo + k] == Bit(w, k)
    ensures Word(bits, lo, lo + n) == w
    decreases n
  {
    if n > 0 {
      assert bits[lo + 0] == Bit(w, 0);
      forall k: nat | k < n - 1 ensures bits[lo + 1 + k] == Bit(w / 2, k) { assert bits[lo + (k + 1)] == Bit(w, k + 1); }
      WordOfBits(bits, lo + 1, n - 1, w / 2);
    }
  }

  // ----- words of a file

  function Bits2Words(n: nat): (words: nat)
    ensures n <= 64 * words < n + 64
  {
    (n + 63) / 64
  }

  /** Where the i-th word starts; past the last one, the end. */
  function WordStart(n: nat, i: nat): nat { Min(64 * i, n) }

  lemma WordStarts(n: nat, i: nat)
    requires i < Bits2Words(n)
    ensures WordStart(n, i) == 64 * i < WordStart(n, i + 1) <= 64 * i + 64 && WordStart(n, i + 1) <= n
    ensures WordStart(n, i + 1) == n || WordStart(n, i + 1) == 64 * i + 64
  {
  }

  lemma LastWordEnds(n: nat)
    ensures WordStart(n, Bits2Words(n)) == n
  {
  }

  function WordAt(bits: seq<bool>, i: nat): nat {
    Word(bits, WordStart(|bits|, i), WordStart(|bits|, i + 1))
  }

  function ByteOf(w: nat, k: nat): Terms.byte {
    if k == 0 then w % 256 else ByteOf(w / 256, k - 1)
  }

  /** A 64-bit word, little-endian. */
  function LongBytes(w: nat): (b: Bytes)
    ensures |b| == 8
  {
    seq(8, k requires 0 <= k => ByteOf(w, k))
  }

  function LeValue(b: Bytes, p: nat, n: nat): nat
    requires p + n <= |b|
    decreases |b| - p
  {
    if n == 0 then 0 else b[p] + 256 * LeValue(b, p + 1, n - 1)
  }

  function Pow256(n: nat): nat { if n == 0 then 1 else 256 * Pow256(n - 1) }

  lemma {:induction false} LeRoundTrip(b: Bytes, p: nat, n: nat, w: nat)
    requires p + n <= |b| && w < Pow256(n)
    requires forall k: nat :: k < n ==> b[p + k] == ByteOf(w, k)
    ensures LeValue(b, p, n) == w
    decreases n
  {
    if n > 0 {
      assert b[p] == b[p + 0] == ByteOf(w, 0);
      forall k: nat | k < n - 1 ensures b[p + 1 + k] == ByteOf(w / 256, k) {
        assert b[p + (k + 1)] == ByteOf(w, k + 1);
      }
      LeRoundTrip(b, p + 1, n - 1, w / 256);
    }
  }

  lemma {:induction false} LongRead(b: Bytes, p: nat, w: nat)
    requires p + 8 <= |b| && b[p..p + 8] == LongBytes(w) && w < Pow256(8)
    ensures LeValue(b, p, 8) == w
  {
    forall k: nat | k < 8 ensures b[p + k] == ByteOf(w, k) {
      assert b[p + k] == b[p..p + 8][k];
    }
    LeRoundTrip(b, p, 8, w);
  }

  /** The words as the bytes of a file. */
  function LongsBytes(words: seq<nat>): (b: Bytes)
    ensures |b| == 8 * |words|
  {
    if words == [] then [] else LongsBytes(words[..|words| - 1]) + LongBytes(words[|words| - 1])
  }

  lemma {:induction false} LongsAppend(words: seq<nat>, w: nat)
    ensures LongsBytes(words + [w]) == LongsBytes(words) + LongBytes(w)
  {
    assert (words + [w])[..|words|] == words;
  }

  lemma SplitSlice(b: Bytes, p: nat, x: Bytes, y: Bytes)
    requires p + |x| + |y| <= |b| && b[p..p + |x| + |y|] == x + y
    ensures b[p..p + |x|] == x && b[p + |x|..p + |x| + |y|] == y
  {
    assert b[p..p + |x|] == b[p..p + |x| + |y|][..|x|];
    assert b[p + |x|..p + |x| + |y|] == b[p..p + |x| + |y|][|x|..];
  }

  ghost predicate LongIs(b: Bytes, at: nat, w: nat) { at + 8 <= |b| && LeValue(b, at, 8) == w }

  /** From q on, reading gives these words. */
  ghost predicate ReadAt(b: Bytes, q: nat, words: seq<nat>) {
    forall i :: 0 <= i < |words| ==> LongIs(b, q + 8 * i, words[i])
  }

  /** Each word has 64 bits. */
  ghost predicate Longs(words: seq<nat>) { forall i :: 0 <= i < |words| ==> words[i] < Pow256(8) }

  /** Where words were written, those words are read. */
  lemma {:induction false} LongsRead(b: Bytes, p: nat, words: seq<nat>, e: nat)
    requires e == p + 8 * |words| <= |b| && b[p..e] == LongsBytes(words)
    requires Longs(words)
    ensures ReadAt(b, p, words)
    decreases |words|
  {
    if words != [] {
      var n := |words| - 1;
      SplitSlice(b, p, LongsBytes(words[..n]), LongBytes(words[n]));
      LongsRead(b, p, words[..n], p + 8 * n);
      LongRead(b, p + 8 * n, words[n]);
      forall i | 0 <= i < |words| ensures LongIs(b, p + 8 * i, words[i]) {
        assert i < n ==> words[..n][i] == words[i];
      }
    }
  }

  /** The first m words of the bits. */
  function Pack(bits: seq<bool>, m: nat): (words: seq<nat>)
    requires m <= Bits2Words(|bits|)
    ensures |words| == m
  {
    if m == 0 then [] else Pack(bits, m - 1) + [WordAt(bits, m - 1)]
  }

  lemma {:induction false} PackAt(bits: seq<bool>, m: nat, i: nat)
    requires i < m <= Bits2Words(|bits|)
    ensures Pack(bits, m)[i] == WordAt(bits, i)
    decreases m
  {
    if i < m - 1 { PackAt(bits, m - 1, i); }
  }

  lemma {:induction false} FillStep(bits: seq<bool>, lo: nat, hi: nat, next: nat, n: nat)
    requires lo <= hi < |bits| && next == hi + 1 && n == hi - lo
    ensures var w := Word(bits, lo, hi); Word(bits, lo, next) == if bits[hi] then Or(w, Pow2(n)) else w
    ensures CountTrue(bits, lo, next) == CountTrue(bits, lo, hi) + if bits[hi] then 1 else 0
  {
    WordStep(bits, lo, hi, next, n);
    CountSum(bits, lo, hi, next);
    assert CountTrue(bits, next, next) == 0;
    WordBound(bits, lo, hi, n);
    ScaledOne(n);
    OrAbove(Word(bits, lo, hi), 1, n);
  }

  lemma InWord(i: nat, n: nat)
    requires n < 64
    ensures (64 * i + n) % 64 == n && (64 * i + n) / 64 == i
  {
  }

  /** Fills one word and counts the documents that are not in it. */
  method FillWord(bits: seq<bool>, i: nat, ghost lo: nat, ghost hi: nat) returns (current: nat, deleted: nat)
    requires i < Bits2Words(|bits|) && lo == WordStart(|bits|, i) && hi == WordStart(|bits|, i + 1)
    ensures lo <= hi <= |bits|
    ensures current == Word(bits, lo, hi) && deleted == hi - lo - CountTrue(bits, lo, hi)
  {
    current, deleted := 0, 0;
    var start := 64 * i;
    WordStarts(|bits|, i);
    var end := Min(start + 63, |bits| - 1);
    var j := start;
    ghost var n := 0;
    while j <= end
      invariant lo <= j <= end + 1 && n == j - lo
      invariant current == Word(bits, lo, j) && deleted == n - CountTrue(bits, lo, j)
    {
      FillStep(bits, lo, j, j + 1, n);
      InWord(i, n);
      if bits[j] {
        current := Or(current, Pow2(j % 64));
      } else {
        deleted := deleted + 1;
      }
      j, n := j + 1, n + 1;
    }
  }

  lemma Associates(a: Bytes, b: Bytes, c: Bytes)
    ensures a + b + c == a + (b + c)
  {
  }

  method WriteLong(output: Output, w: nat, ghost words: seq<nat>, ghost start: Bytes)
    requires output.bytes == start + LongsBytes(words)
    modifies output
    ensures output.bytes == start + LongsBytes(words + [w])
  {
    LongsAppend(words, w);
    Associates(start, LongsBytes(words), LongBytes(w));
    output.WriteBytes(LongBytes(w));
  }

  /** Writes the bits as words and returns how many are not set. */
  method WriteBits(output: Output, bits: seq<bool>) returns (deleted: nat)
    modifies output
    ensures output.bytes == old(output.bytes) + LongsBytes(Pack(bits, Bits2Words(|bits|)))
    ensures deleted == |bits| - CountTrue(bits, 0, |bits|)
  {
    deleted := 0;
    ghost var words, lo := [], 0;
    for i := 0 to Bits2Words(|bits|)
      invariant words == Pack(bits, i) && output.bytes == old(output.bytes) + LongsBytes(words)
      invariant lo == WordStart(|bits|, i) && deleted == lo - CountTrue(bits, 0, lo)
    {
      ghost var hi := WordStart(|bits|, i + 1);
      var current, missing := FillWord(bits, i, lo, hi);
      CountSum(bits, 0, lo, hi);
      WriteLong(output, current, words, old(output.bytes));
      words, lo := words + [current], hi;
      deleted := deleted + missing;
    }
    LastWordEnds(|bits|);
  }

  datatype FixedBitSet = FixedBitSet(words: seq<nat>, numBits: nat)

  predicate Get(s: FixedBitSet, index: nat)
    requires index / 64 < |s.words|
  {
    Bit(s.words[index / 64], index % 64)
  }

  /** Reads as many words as hold the given number of bits. */
  method ReadFixedBitSet(input: Input, length: nat) returns (r: Result<FixedBitSet>)
    requires input.Valid()
    modifies input
    ensures input.Valid() && (old(input.Sequential()) ==> input.Sequential())
    ensures r.Ok? <==> old(input.pos) + 8 * Bits2Words(length) <= |input.bytes|
    ensures r.Ok? ==>
              && input.pos == old(input.pos) + 8 * Bits2Words(length)
              && r.value.numBits == length && |r.value.words| == Bits2Words(length)
              && ReadAt(input.bytes, old(input.pos), r.value.words)
  {
    var words: seq<nat> := [];
    var m := Bits2Words(length);
    for i := 0 to m
      invariant input.Valid() && (old(input.Sequential()) ==> input.Sequential())
      invariant input.pos == old(input.pos) + 8 * i && |words| == i
      invariant ReadAt(input.bytes, old(input.pos), words)
    {
      ghost var p := input.pos;
      var b := input.ReadBytes(8);
      if !b.Ok? { return EndOfFile; }
      LeSlice(input.bytes, p, 8, b.value, 0);
      assert LongIs(input.bytes, p, LeValue(b.value, 0, 8));
      words := words + [LeValue(b.value, 0, 8)];
    }
    r := Ok(FixedBitSet(words, length));
  }

  lemma {:induction false} LeSlice(b: Bytes, p: nat, n: nat, slice: Bytes, q: nat)
    requires p + n <= |b| && q + n <= |slice| && b[p..p + n] == slice[q..q + n]
    ensures LeValue(b, p, n) == LeValue(slice, q, n)
    decreases n
  {
    if n > 0 {
      assert b[p] == b[p..p + n][0] == slice[q..q + n][0] == slice[q];
      assert b[p + 1..p + n] == b[p..p + n][1..] == slice[q..q + n][1..] == slice[q + 1..q + n];
      LeSlice(b, p + 1, n - 1, slice, q + 1);
    }
  }

  ghost function OnesUpTo(words: seq<nat>, m: nat): nat
    requires m <= |words|
  {
    if m == 0 then 0 else OnesUpTo(words, m - 1) + Ones(words[m - 1])
  }

  method Cardinality(s: FixedBitSet) returns (total: nat)
    ensures total == OnesUpTo(s.words, |s.words|)
  {
    total := 0;
    for i := 0 to |s.words|
      invariant total == OnesUpTo(s.words, i)
    {
      total := total + Ones(s.words[i]);
    }
  }

  /** Bit k of a little-endian number is bit k % 8 of its byte k / 8. */
  lemma {:induction false} LeBits(b: Bytes, p: nat, n: nat, k: nat)
    requires p + n <= |b| && k < 8 * n
    ensures p + k / 8 < |b| && Bit(LeValue(b, p, n), k) == Bit(b[p + k / 8], k % 8)
    decreases n
  {
    var rest := LeValue(b, p + 1, n - 1);
    assert Pow2(8) == 256 by { EightBits(0); }
    SplitBits(b[p], rest, 8, 256 * rest, k);
    if k >= 8 {
      LeBits(b, p + 1, n - 1, k - 8);
      assert k / 8 == 1 + (k - 8) / 8 && k % 8 == (k - 8) % 8;
    }
  }

  lemma {:induction false} LeBound(b: Bytes, p: nat, n: nat)
    requires p + n <= |b|
    ensures LeValue(b, p, n) < Pow256(n)
    decreases n
  {
    if n > 0 { LeBound(b, p + 1, n - 1); }
  }

  /** Document d of a set read from q on is bit d % 8 of byte d / 8 from there. */
  lemma {:induction false} DocumentBit(b: Bytes, q: nat, s: FixedBitSet, d: nat)
    requires ReadAt(b, q, s.words) && d < 64 * |s.words|
    ensures q + d / 8 < |b| && Get(s, d) == (b[q + d / 8] / Pow2(d % 8) % 2 == 1)
  {
    var i, k := d / 64, d % 64;
    assert LongIs(b, q + 8 * i, s.words[i]);
    LeBits(b, q + 8 * i, 8, k);
    assert 8 * i + k / 8 == d / 8 && k % 8 == d % 8;
    BitIs(b[q + d / 8], d % 8);
  }

  /** The cardinality is the number of documents in the set. */
  lemma CardinalityIs(b: Bytes, q: nat, s: FixedBitSet)
    requires ReadAt(b, q, s.words)
    ensures OnesUpTo(s.words, |s.words|) == |set d: nat | d < 64 * |s.words| && Get(s, d)|
  {
    var n := 64 * |s.words|;
    var bits := seq(n, d requires 0 <= d < n => Get(s, d));
    OnesAre(b, q, s, bits, |s.words|, n);
    CountIs(bits, 0, n);
    assert (set k | 0 <= k < n && bits[k]) == set d: nat | d < n && Get(s, d);
  }

  ghost predicate BitsOf(s: FixedBitSet, bits: seq<bool>) {
    |bits| == 64 * |s.words| && forall d: nat :: d < |bits| ==> bits[d] == Get(s, d)
  }

  lemma {:induction false} OnesOfWord(b: Bytes, q: nat, s: FixedBitSet, bits: seq<bool>, i: nat, lo: nat, hi: nat)
    requires ReadAt(b, q, s.words) && BitsOf(s, bits) && i < |s.words| && lo == 64 * i && hi == lo + 64
    ensures Ones(s.words[i]) == CountTrue(bits, lo, hi)
  {
    LongBound(b, q, s.words, i);
    forall k: nat | k < 64 ensures bits[lo + k] == Bit(s.words[i], k) { InWord(i, k); }
    WordOfBits(bits, lo, 64, s.words[i]);
    WordOnes(bits, lo, hi);
  }

  lemma LongBound(b: Bytes, q: nat, words: seq<nat>, i: nat)
    requires ReadAt(b, q, words) && i < |words|
    ensures words[i] < Pow2(64)
  {
    assert LongIs(b, q + 8 * i, words[i]);
    LeBound(b, q + 8 * i, 8);
    PowersAgree(8);
  }

  lemma {:induction false} OnesAre(b: Bytes, q: nat, s: FixedBitSet, bits: seq<bool>, m: nat, n: nat)
    requires ReadAt(b, q, s.words) && BitsOf(s, bits) && m <= |s.words| && n == 64 * m
    ensures OnesUpTo(s.words, m) == CountTrue(bits, 0, n)
    decreases m
  {
    if m > 0 {
      OnesAre(b, q, s, bits, m - 1, n - 64);
      OnesOfWord(b, q, s, bits, m - 1, n - 64, n);
      CountSum(bits, 0, n - 64, n);
    }
  }

  /** The set has exactly these bits, and none past the end. */
  ghost predicate Holds(s: FixedBitSet, bits: seq<bool>) {
    s == FixedBitSet(Pack(bits, Bits2Words(|bits|)), |bits|)
  }

  /** What a set that holds the bits answers, at every index of its words. */
  lemma HeldBits(s: FixedBitSet, bits: seq<bool>, index: nat)
    requires Holds(s, bits) && index / 64 < |s.words|
    ensures Get(s, index) == (index < |bits| && bits[index])
  {
    var i := index / 64;
    PackAt(bits, |s.words|, i);
    WordStarts(|bits|, i);
    WordBits(bits, 64 * i, WordStart(|bits|, i + 1), index % 64);
  }

  lemma {:induction false} PackOnes(bits: seq<bool>, m: nat)
    requires m <= Bits2Words(|bits|)
    ensures OnesUpTo(Pack(bits, m), m) == CountTrue(bits, 0, WordStart(|bits|, m))
  {
    if m > 0 {
      var i := m - 1;
      PackOnes(bits, i);
      OnesPrefix(Pack(bits, m), Pack(bits, i), i);
      var lo, hi := WordStart(|bits|, i), WordStart(|bits|, m);
      WordOnes(bits, lo, hi);
      CountSum(bits, 0, lo, hi);
    }
  }

  lemma {:induction false} OnesPrefix(a: seq<nat>, b: seq<nat>, m: nat)
    requires m <= |a| && m <= |b| && forall i :: 0 <= i < m ==> a[i] == b[i]
    ensures OnesUpTo(a, m) == OnesUpTo(b, m)
    decreases m
  {
    if m > 0 { OnesPrefix(a, b, m - 1); }
  }

  lemma WordFits(bits: seq<bool>, i: nat)
    requires i < Bits2Words(|bits|)
    ensures WordAt(bits, i) < Pow256(8)
  {
    WordBound(bits, WordStart(|bits|, i), WordStart(|bits|, i + 1), 64);
    PowersAgree(8);
  }

  lemma {:induction false} PowersAgree(n: nat)
    ensures Pow2(8 * n) == Pow256(n)
  {
    if n > 0 {
      PowersAgree(n - 1);
      EightBits(8 * (n - 1));
    }
  }

  lemma {:induction false} PackFits(bits: seq<bool>, m: nat)
    requires m <= Bits2Words(|bits|)
    ensures Longs(Pack(bits, m))
  {
    forall i: nat | i < m ensures Pack(bits, m)[i] < Pow256(8) {
      PackAt(bits, m, i);
      WordFits(bits, i);
    }
  }

  // ----- the file

  /** "Lucene90LiveDocs" */
  const CODEC_NAME: Bytes := [76, 117, 99, 101, 110, 101, 57, 48, 76, 105, 118, 101, 68, 111, 99, 115]

  lemma CodecNameOk()
    ensures CodecOk(CODEC_NAME)
  {
  }

  const VERSION_START := 0
  const VERSION_CURRENT := VERSION_START

  /** The file before its footer. */
  function Body(bits: seq<bool>, id: Bytes, suffix: Bytes): Bytes
    requires |suffix| < 256
  {
    IndexHeader(CODEC_NAME, VERSION_CURRENT, id, suffix) + LongsBytes(Pack(bits, Bits2Words(|bits|)))
  }

  method WriteLiveDocs(output: Output, bits: seq<bool>, id: Bytes, suffix: Bytes, delCount: int) returns (r: Result<()>)
    requires output.bytes == [] && |id| == ID_LENGTH
    modifies output
    ensures r.Ok? <==>
            && SuffixOk(suffix) && output.checksum(Body(bits, id, suffix) + FooterHead()) < 0x1_0000_0000
            && delCount == |bits| - |set k | 0 <= k < |bits| && bits[k]|
    ensures r.Ok? ==> output.bytes == Finished(output.checksum, Body(bits, id, suffix))
  {
    CountIs(bits, 0, |bits|);
    r := WriteIndexHeader(output, CODEC_NAME, VERSION_CURRENT, id, suffix);
    if !r.Ok? { return; }
    var deleted := WriteBits(output, bits);
    assert output.bytes == Body(bits, id, suffix);
    r := WriteFooter(output);
    if !r.Ok? { return; }
    if deleted != delCount { r := Corrupt; }
  }

  /** From at on there are the words of a set of that many bits, of which delCount are not
      set, and right after them the footer. */
  ghost predicate RestOk(checksum: Bytes -> nat, b: Bytes, at: nat, length: nat, delCount: int, s: FixedBitSet) {
    && at + 8 * Bits2Words(length) + FOOTER_LENGTH == |b|
    && s.numBits == length && |s.words| == Bits2Words(length) && ReadAt(b, at, s.words)
    && length - OnesUpTo(s.words, |s.words|) == delCount
    && FooterAt(checksum, b, |b| - FOOTER_LENGTH)
  }

  /** The file is a header up to at, then the words of the set, then the footer. */
  ghost predicate LiveDocsFile(input: Input, id: Bytes, suffix: Bytes, length: nat, delCount: int, m: nat, at: nat, s: FixedBitSet) {
    && IndexHeaderAt(input.lossy, input.bytes, 0, CODEC_NAME, VERSION_CURRENT, id, suffix, m, at)
    && RestOk(input.checksum, input.bytes, at, length, delCount, s)
  }

  /** Reads the live documents of a segment with the given number of documents. Accepts
      exactly the files that hold them. */
  method ReadLiveDocs(input: Input, length: nat, id: Bytes, suffix: Bytes, delCount: int)
    returns (r: Result<FixedBitSet>, ghost m: nat, ghost at: nat)
    requires input.Valid() && input.Sequential() && input.pos == 0
    modifies input
    ensures r.Ok? ==> LiveDocsFile(input, id, suffix, length, delCount, m, at, r.value)
    ensures forall m': nat, at': nat, s: FixedBitSet :: LiveDocsFile(input, id, suffix, length, delCount, m', at', s) ==> r == Ok(s)
    ensures r.Ok? ==> forall d: nat :: d < 64 * |r.value.words| ==>
              at + d / 8 < |input.bytes| && Get(r.value, d) == (input.bytes[at + d / 8] / Pow2(d % 8) % 2 == 1)
    ensures r.Ok? ==> delCount == length - |set d: nat | d < 64 * |r.value.words| && Get(r.value, d)|
  {
    r, m, at := ReadFile(input, length, id, suffix, delCount);
    if r.Ok? {
      forall d: nat | d < 64 * |r.value.words|
        ensures at + d / 8 < |input.bytes| && Get(r.value, d) == (input.bytes[at + d / 8] / Pow2(d % 8) % 2 == 1)
      {
        DocumentBit(input.bytes, at, r.value, d);
      }
      CardinalityIs(input.bytes, at, r.value);
    }
  }

  method ReadFile(input: Input, length: nat, id: Bytes, suffix: Bytes, delCount: int)
    returns (r: Result<FixedBitSet>, ghost m: nat, ghost at: nat)
    requires input.Valid() && input.Sequential() && input.pos == 0
    modifies input
    ensures r.Ok? ==> LiveDocsFile(input, id, suffix, length, delCount, m, at, r.value)
    ensures forall m': nat, at': nat, s: FixedBitSet :: LiveDocsFile(input, id, suffix, length, delCount, m', at', s) ==> r == Ok(s)
  {
    var version;
    version, m := CheckIndexHeader(input, CODEC_NAME, VERSION_START, VERSION_CURRENT, id, suffix);
    at := input.pos;
    if !version.Ok? { r := CopyError(version); return; }
    r := ReadRest(input, length, delCount);
  }

  /** Reads the words and the footer. */
  method ReadRest(input: Input, length: nat, delCount: int) returns (r: Result<FixedBitSet>)
    requires input.Valid() && input.Sequential()
    modifies input
    ensures r.Ok? ==> RestOk(input.checksum, input.bytes, old(input.pos), length, delCount, r.value)
    ensures forall s: FixedBitSet :: RestOk(input.checksum, input.bytes, old(input.pos), length, delCount, s) ==> r == Ok(s)
  {
    ghost var b, at := input.bytes, input.pos;
    r := ReadFixedBitSet(input, length);
    if !r.Ok? { return; }
    var found := r.value;
    forall s: FixedBitSet | RestOk(input.checksum, b, at, length, delCount, s) ensures s == found {
      SameWords(b, at, s.words, found.words);
    }
    var cardinality := Cardinality(found);
    if length - cardinality != delCount { return Corrupt; }
    var footer := CheckFooter(input);
    if !footer.Ok? { return CopyError(footer); }
  }

  lemma SameWords(b: Bytes, at: nat, x: seq<nat>, y: seq<nat>)
    requires |x| == |y| && ReadAt(b, at, x) && ReadAt(b, at, y)
    ensures x == y
  {
    forall i | 0 <= i < |x| ensures x[i] == y[i] {
      assert LongIs(b, at + 8 * i, x[i]) && LongIs(b, at + 8 * i, y[i]);
    }
  }

  ghost predicate WrittenLiveDocs(input: Input, bits: seq<bool>, id: Bytes, suffix: Bytes) {
    && KeepsAscii(input.lossy) && |id| == ID_LENGTH && SuffixOk(suffix)
    && input.checksum(Body(bits, id, suffix) + FooterHead()) < 0x1_0000_0000
    && input.bytes == Finished(input.checksum, Body(bits, id, suffix))
  }

  lemma WrittenStart(input: Input, bits: seq<bool>, id: Bytes, suffix: Bytes, q: nat)
    requires WrittenLiveDocs(input, bits, id, suffix) && q == IndexHeaderLength(CODEC_NAME, suffix)
    ensures IndexHeaderAt(input.lossy, input.bytes, 0, CODEC_NAME, VERSION_CURRENT, id, suffix, HeaderLength(CODEC_NAME), q)
  {
    CodecNameOk();
    var w, l := IndexHeader(CODEC_NAME, VERSION_CURRENT, id, suffix), LongsBytes(Pack(bits, Bits2Words(|bits|)));
    IndexHeaderParts(CODEC_NAME, VERSION_CURRENT, id, suffix);
    PartsOf(input.checksum, input.bytes, w, l, q, q + |l|);
    assert q <= |input.bytes| && input.bytes[0..q] == w;
    WrittenIndexHeaderAt(input.lossy, input.bytes, 0, CODEC_NAME, VERSION_CURRENT, id, suffix, q);
  }

  /** From q on the words of the bits, and right after them the footer. */
  lemma {:induction false} WrittenRest(input: Input, bits: seq<bool>, id: Bytes, suffix: Bytes, q: nat, e: nat, words: seq<nat>)
    requires WrittenLiveDocs(input, bits, id, suffix)
    requires q == IndexHeaderLength(CODEC_NAME, suffix) && words == Pack(bits, Bits2Words(|bits|)) && e == q + 8 * |words|
    ensures e + FOOTER_LENGTH == |input.bytes| && ReadAt(input.bytes, q, words) && FooterAt(input.checksum, input.bytes, e)
  {
    var w := IndexHeader(CODEC_NAME, VERSION_CURRENT, id, suffix);
    IndexHeaderParts(CODEC_NAME, VERSION_CURRENT, id, suffix);
    PackFits(bits, |words|);
    PartsOf(input.checksum, input.bytes, w, LongsBytes(words), q, e);
    LongsRead(input.bytes, q, words, e);
  }

  lemma {:induction false} PackedOnes(bits: seq<bool>, words: seq<nat>)
    requires words == Pack(bits, Bits2Words(|bits|))
    ensures OnesUpTo(words, |words|) == CountTrue(bits, 0, |bits|)
  {
    PackOnes(bits, |words|);
    LastWordEnds(|bits|);
  }

  /** A written file holds its bits, for the number of bits that are not set. */
  lemma {:induction false} WrittenFile(input: Input, bits: seq<bool>, id: Bytes, suffix: Bytes, delCount: int, m: nat, q: nat, held: FixedBitSet)
    requires WrittenLiveDocs(input, bits, id, suffix) && Holds(held, bits)
    requires m == HeaderLength(CODEC_NAME) && q == IndexHeaderLength(CODEC_NAME, suffix)
    ensures LiveDocsFile(input, id, suffix, |bits|, delCount, m, q, held) <==> delCount == |bits| - CountTrue(bits, 0, |bits|)
  {
    var e := q + 8 * |held.words|;
    WrittenStart(input, bits, id, suffix, q);
    WrittenRest(input, bits, id, suffix, q, e, held.words);
    PackedOnes(bits, held.words);
    RestHolds(input.checksum, input.bytes, q, e, |bits|, delCount, held);
  }

  lemma RestHolds(checksum: Bytes -> nat, b: Bytes, q: nat, e: nat, length: nat, delCount: int, s: FixedBitSet)
    requires s.numBits == length && |s.words| == Bits2Words(length) && e == q + 8 * |s.words|
    requires e + FOOTER_LENGTH == |b| && ReadAt(b, q, s.words) && FooterAt(checksum, b, e)
    ensures RestOk(checksum, b, q, length, delCount, s) <==> length - OnesUpTo(s.words, |s.words|) == delCount
  {
    assert e == |b| - FOOTER_LENGTH;
  }

  /** It holds nothing else. */
  lemma {:induction false} WrittenFileUnique(input: Input, bits: seq<bool>, id: Bytes, suffix: Bytes, delCount: int, m: nat, at: nat, s: FixedBitSet)
    requires WrittenLiveDocs(input, bits, id, suffix) && LiveDocsFile(input, id, suffix, |bits|, delCount, m, at, s)
    ensures Holds(s, bits) && delCount == |bits| - CountTrue(bits, 0, |bits|)
  {
    var words, q := Pack(bits, Bits2Words(|bits|)), IndexHeaderLength(CODEC_NAME, suffix);
    WrittenStart(input, bits, id, suffix, q);
    IndexHeaderUnique(input.lossy, input.bytes, 0, CODEC_NAME, VERSION_CURRENT, VERSION_CURRENT, id, suffix, m, at, HeaderLength(CODEC_NAME), q);
    WrittenRest(input, bits, id, suffix, q, q + 8 * |words|, words);
    SameWords(input.bytes, q, s.words, words);
    PackedOnes(bits, words);
  }

  lemma PartsOf(checksum: Bytes -> nat, b: Bytes, w: Bytes, l: Bytes, q: nat, e: nat)
    requires checksum(w + l + FooterHead()) < 0x1_0000_0000 && b == Finished(checksum, w + l)
    requires q == |w| && e == q + |l|
    ensures |b| == e + FOOTER_LENGTH && b[0..q] == w && b[q..e] == l && FooterAt(checksum, b, e)
  {
    FinishedShape(checksum, w + l);
    FinishedFooter(checksum, w + l);
    assert e == |w + l|;
    assert b[..e] == b[..e + 8][..e] == w + l;
    FileParts(w, l, b);
  }

  lemma FileParts(w: Bytes, words: Bytes, b: Bytes)
    requires w + words <= b
    ensures b[0..|w|] == w && b[|w|..|w| + |words|] == words && b[..|w| + |words|] == w + words
  {
  }

  /** Writing the live documents and reading them back gives the same bits, with none set
      past the end. */
  method LiveDocsRoundTrip(bits: seq<bool>, id: Bytes, suffix: Bytes, delCount: int, checksum: Bytes -> nat, lossy: Bytes -> Bytes)
    returns (r: Result<FixedBitSet>)
    requires |id| == ID_LENGTH && SuffixOk(suffix) && KeepsAscii(lossy)
    requires forall b {:trigger checksum(b)} :: checksum(b) < 0x1_0000_0000
    ensures r.Ok? <==> delCount == |bits| - |set k | 0 <= k < |bits| && bits[k]|
    ensures r.Ok? ==> r.value.numBits == |bits| && |r.value.words| == Bits2Words(|bits|)
    ensures r.Ok? ==> forall k: nat :: k / 64 < |r.value.words| ==> Get(r.value, k) == (k < |bits| && bits[k])
  {
    CountIs(bits, 0, |bits|);
    var output := new Output(checksum);
    var ok := WriteLiveDocs(output, bits, id, suffix, delCount);
    if !ok.Ok? { return CopyError(ok); }
    var input := new Input(output.bytes, checksum, lossy);
    assert WrittenLiveDocs(input, bits, id, suffix);
    WrittenFile(input, bits, id, suffix, delCount, HeaderLength(CODEC_NAME), IndexHeaderLength(CODEC_NAME, suffix),
                FixedBitSet(Pack(bits, Bits2Words(|bits|)), |bits|));
    ghost var m, at;
    r, m, at := ReadLiveDocs(input, |bits|, id, suffix, delCount);
    forall k: nat | k / 64 < |r.value.words| ensures Get(r.value, k) == (k < |bits| && bits[k]) {
      HeldBits(r.value, bits, k);
    }
  }
}
