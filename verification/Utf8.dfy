/** UTF-8 as section 3 of RFC 3629 defines it: the encoding of scalar values, decoding at
    a byte position, and where the characters of an encoded text start. */
module Utf8 {

  type Bytes = seq<int>

  type Scalar = c: int | 0 <= c < 0xD800 || 0xE000 <= c <= 0x10FFFF

  type Text = seq<Scalar>

  function Utf8Length(c: Scalar): (n: nat)
    ensures 1 <= n <= 4
  {
    if c < 0x80 then 1 else if c < 0x800 then 2 else if c < 0x10000 then 3 else 4
  }

  function Encode(c: Scalar): (b: Bytes)
    ensures |b| == Utf8Length(c)
    ensures forall k :: 0 <= k < |b| ==> 0 <= b[k] < 256
  {
    var c1 := c / 64;
    var c2 := c1 / 64;
    var c3 := c2 / 64;
    if c < 0x80 then [c]
    else if c < 0x800 then [0xC0 + c1, 0x80 + c % 64]
    else if c < 0x10000 then [0xE0 + c2, 0x80 + c1 % 64, 0x80 + c % 64]
    else [0xF0 + c3, 0x80 + c2 % 64, 0x80 + c1 % 64, 0x80 + c % 64]
  }

  /** The byte sequences that section 4 of RFC 3629 allows for one character. */
  predicate WellFormed(b: Bytes) {
    match |b|
    case 1 => 0 <= b[0] <= 0x7F
    case 2 => 0xC2 <= b[0] <= 0xDF && Tail(b[1])
    case 3 =>
      && 0xE0 <= b[0] <= 0xEF && Tail(b[1]) && Tail(b[2])
      && (b[0] == 0xE0 ==> 0xA0 <= b[1]) && (b[0] == 0xED ==> b[1] <= 0x9F)
    case 4 =>
      && 0xF0 <= b[0] <= 0xF4 && Tail(b[1]) && Tail(b[2]) && Tail(b[3])
      && (b[0] == 0xF0 ==> 0x90 <= b[1]) && (b[0] == 0xF4 ==> b[1] <= 0x8F)
    case _ => false
  }

  predicate Tail(x: int) { 0x80 <= x <= 0xBF }

  lemma EncodeWellFormed(c: Scalar)
    ensures WellFormed(Encode(c))
  {
  }

  lemma SixBits(high: nat, low: nat, c: int)
    requires low < 64 && c == high * 64 + low
    ensures c / 64 == high && c % 64 == low
  {
  }

  lemma DecodableThree(b: Bytes, c1: nat, c: Scalar)
    requires |b| == 3 && WellFormed(b)
    requires c1 == (b[0] - 0xE0) * 64 + (b[1] - 0x80) && c == c1 * 64 + (b[2] - 0x80)
    ensures Encode(c) == b
  {
    SixBits(b[0] - 0xE0, b[1] - 0x80, c1);
    SixBits(c1, b[2] - 0x80, c);
  }

  lemma DecodableFour(b: Bytes, c2: nat, c1: nat, c: Scalar)
    requires |b| == 4 && WellFormed(b)
    requires c2 == (b[0] - 0xF0) * 64 + (b[1] - 0x80) && c1 == c2 * 64 + (b[2] - 0x80) && c == c1 * 64 + (b[3] - 0x80)
    ensures Encode(c) == b
  {
    SixBits(b[0] - 0xF0, b[1] - 0x80, c2);
    SixBits(c2, b[2] - 0x80, c1);
    SixBits(c1, b[3] - 0x80, c);
  }

  /** The character a well-formed sequence stands for. */
  lemma Decodable(b: Bytes) returns (c: Scalar)
    requires WellFormed(b)
    ensures Encode(c) == b
  {
    if |b| == 1 {
      c := b[0];
    } else if |b| == 2 {
      c := (b[0] - 0xC0) * 64 + (b[1] - 0x80);
      SixBits(b[0] - 0xC0, b[1] - 0x80, c);
    } else if |b| == 3 {
      var c1 := (b[0] - 0xE0) * 64 + (b[1] - 0x80);
      c := c1 * 64 + (b[2] - 0x80);
      DecodableThree(b, c1, c);
    } else {
      var c2 := (b[0] - 0xF0) * 64 + (b[1] - 0x80);
      var c1 := c2 * 64 + (b[2] - 0x80);
      c := c1 * 64 + (b[3] - 0x80);
      DecodableFour(b, c2, c1, c);
    }
  }

  /** Characters are encoded by exactly the well-formed sequences, in their order. With
      equally many of both there is no other such encoding. */
  lemma EncodingIff(b: Bytes)
    ensures WellFormed(b) <==> exists c: Scalar :: Encode(c) == b
  {
    if WellFormed(b) {
      var c := Decodable(b);
    } else {
      forall c: Scalar ensures Encode(c) != b { EncodeWellFormed(c); }
    }
  }

  predicate DiffersAt(a: Bytes, b: Bytes, k: nat) {
    k < |a| && k < |b| && a[..k] == b[..k] && a[k] < b[k]
  }

  /** A smaller character has, after some common bytes, a smaller byte. */
  lemma EncodingOrder(c: Scalar, d: Scalar)
    requires c < d
    ensures exists k: nat :: DiffersAt(Encode(c), Encode(d), k)
  {
    if Utf8Length(c) < Utf8Length(d) {
      assert DiffersAt(Encode(c), Encode(d), 0);
    } else if c < 0x80 {
      assert DiffersAt(Encode(c), Encode(d), 0);
    } else if c < 0x800 {
      OrderOfTwo(c, d, c / 64, d / 64);
    } else if c < 0x10000 {
      OrderOfThree(c, d, c / 64, d / 64, c / 64 / 64, d / 64 / 64);
    } else {
      OrderOfFour(c, d, c / 64, d / 64, c / 64 / 64, d / 64 / 64, c / 64 / 64 / 64, d / 64 / 64 / 64);
    }
  }

  lemma OrderOfTwo(c: Scalar, d: Scalar, c1: nat, d1: nat)
    requires c < d && Utf8Length(c) == Utf8Length(d) == 2 && c1 == c / 64 && d1 == d / 64
    ensures exists k: nat :: DiffersAt(Encode(c), Encode(d), k)
  {
    assert DiffersAt(Encode(c), Encode(d), if c1 < d1 then 0 else 1);
  }

  lemma OrderOfThree(c: Scalar, d: Scalar, c1: nat, d1: nat, c2: nat, d2: nat)
    requires c < d && Utf8Length(c) == Utf8Length(d) == 3 && c1 == c / 64 && d1 == d / 64 && c2 == c1 / 64 && d2 == d1 / 64
    ensures exists k: nat :: DiffersAt(Encode(c), Encode(d), k)
  {
    if c2 < d2 { assert DiffersAt(Encode(c), Encode(d), 0); }
    else if c1 < d1 { assert DiffersAt(Encode(c), Encode(d), 1); }
    else { assert DiffersAt(Encode(c), Encode(d), 2); }
  }

  lemma OrderOfFour(c: Scalar, d: Scalar, c1: nat, d1: nat, c2: nat, d2: nat, c3: nat, d3: nat)
    requires c < d && Utf8Length(c) == Utf8Length(d) == 4 && c1 == c / 64 && d1 == d / 64 && c2 == c1 / 64 && d2 == d1 / 64
    requires c3 == c2 / 64 && d3 == d2 / 64
    ensures exists k: nat :: DiffersAt(Encode(c), Encode(d), k)
  {
    if c3 < d3 { assert DiffersAt(Encode(c), Encode(d), 0); }
    else if c2 < d2 { assert DiffersAt(Encode(c), Encode(d), 1); }
    else if c1 < d1 { assert DiffersAt(Encode(c), Encode(d), 2); }
    else { assert DiffersAt(Encode(c), Encode(d), 3); }
  }

  function EncodeAll(text: Text): Bytes {
    if text == [] then [] else Encode(text[0]) + EncodeAll(text[1..])
  }

  /** How many bytes a character takes, by its first byte. */
  function LengthAt(b0: int): nat {
    if b0 < 0x80 then 1 else if b0 < 0xE0 then 2 else if b0 < 0xF0 then 3 else 4
  }

  /** The value of the character whose bytes start at a position. */
  function ValueAt(bytes: Bytes, at: nat): int
    requires at < |bytes| && at + LengthAt(bytes[at]) <= |bytes|
  {
    var b0 := bytes[at];
    if b0 < 0x80 then b0
    else if b0 < 0xE0 then (b0 - 0xC0) * 64 + (bytes[at + 1] - 0x80)
    else if b0 < 0xF0 then ((b0 - 0xE0) * 64 + (bytes[at + 1] - 0x80)) * 64 + (bytes[at + 2] - 0x80)
    else (((b0 - 0xF0) * 64 + (bytes[at + 1] - 0x80)) * 64 + (bytes[at + 2] - 0x80)) * 64 + (bytes[at + 3] - 0x80)
  }

  lemma SliceElement(bytes: Bytes, at: nat, e: Bytes, k: nat)
    requires at + |e| <= |bytes| && bytes[at..at + |e|] == e && k < |e|
    ensures bytes[at + k] == e[k]
  {
    assert bytes[at..at + |e|][k] == bytes[at + k];
  }

  /** Decoding undoes encoding, wherever in a longer string it happens. */
  lemma DecodeEncode(bytes: Bytes, at: nat, c: Scalar)
    requires at + Utf8Length(c) <= |bytes| && bytes[at..at + Utf8Length(c)] == Encode(c)
    ensures LengthAt(bytes[at]) == Utf8Length(c) && ValueAt(bytes, at) == c
    ensures bytes[at] < 0x80 <==> c < 0x80
  {
    var e := Encode(c);
    forall k: nat | k < |e| ensures bytes[at + k] == e[k] { SliceElement(bytes, at, e, k); }
    assert bytes[at] == bytes[at + 0] == e[0];
  }

  // ----- where characters start

  function Offset(text: Text, k: nat): nat
    requires k <= |text|
  {
    if k == 0 then 0 else Offset(text, k - 1) + Utf8Length(text[k - 1])
  }

  lemma {:induction false} OffsetShift(text: Text, k: nat)
    requires 0 < k <= |text|
    ensures Offset(text, k) == Utf8Length(text[0]) + Offset(text[1..], k - 1)
  {
    if k > 1 { OffsetShift(text, k - 1); }
  }

  lemma {:induction false} OffsetsRise(text: Text, i: nat, k: nat)
    requires i <= k <= |text|
    ensures Offset(text, i) + (k - i) <= Offset(text, k)
    decreases k
  {
    if i < k { OffsetsRise(text, i, k - 1); }
  }

  lemma {:induction false} EncodedLength(text: Text)
    ensures |EncodeAll(text)| == Offset(text, |text|)
  {
    if text != [] {
      EncodedLength(text[1..]);
      OffsetShift(text, |text|);
    }
  }

  lemma SliceOfConcat(a: Bytes, b: Bytes, lo: nat, m: nat)
    requires lo + m <= |b|
    ensures (a + b)[|a| + lo..|a| + lo + m] == b[lo..lo + m]
  {
  }

  lemma SliceOfFirst(a: Bytes, b: Bytes)
    ensures (a + b)[0..0 + |a|] == a
  {
  }

  lemma {:induction false} EncodedAt(text: Text, k: nat)
    requires k < |text|
    ensures Offset(text, k) + Utf8Length(text[k]) <= |EncodeAll(text)|
    ensures EncodeAll(text)[Offset(text, k)..Offset(text, k) + Utf8Length(text[k])] == Encode(text[k])
    decreases k
  {
    if k > 0 {
      EncodedAt(text[1..], k - 1);
      OffsetShift(text, k);
      SliceOfConcat(Encode(text[0]), EncodeAll(text[1..]), Offset(text[1..], k - 1), Utf8Length(text[k]));
    } else {
      SliceOfFirst(Encode(text[0]), EncodeAll(text[1..]));
    }
  }

  /** The bytes end after the last character. */
  lemma {:induction false} CharBefore(text: Text, k: nat)
    requires k <= |text|
    ensures Offset(text, k) <= |EncodeAll(text)| && (Offset(text, k) < |EncodeAll(text)| <==> k < |text|)
  {
    EncodedLength(text);
    OffsetsRise(text, k, |text|);
  }

  /** The bytes of a text hold at each character position that character, and end after
      the last. */
  lemma CharAt(text: Text, k: nat)
    requires k <= |text|
    ensures var bytes, at := EncodeAll(text), Offset(text, k);
            && (at < |bytes| <==> k < |text|) && at <= |bytes|
            && (k < |text| ==>
                  && at + LengthAt(bytes[at]) <= |bytes|
                  && ValueAt(bytes, at) == text[k]
                  && Offset(text, k + 1) == at + LengthAt(bytes[at]) == at + Utf8Length(text[k])
                  && (bytes[at] < 0x80 <==> text[k] < 0x80))
  {
    CharBefore(text, k);
    if k < |text| {
      EncodedAt(text, k);
      DecodeEncode(EncodeAll(text), Offset(text, k), text[k]);
    }
  }

  predicate AsciiBlock(bytes: Bytes, at: nat, n: nat)
  {
    at + n <= |bytes| && forall i :: at <= i < at + n ==> bytes[i] < 0x80
  }

  /** A block of ASCII bytes at a character position is as many characters. */
  lemma {:induction false} BlockChars(text: Text, k: nat, n: nat)
    requires k <= |text| && AsciiBlock(EncodeAll(text), Offset(text, k), n)
    ensures k + n <= |text| && Offset(text, k + n) == Offset(text, k) + n
    ensures forall i :: k <= i < k + n ==> text[i] < 0x80 && text[i] == EncodeAll(text)[Offset(text, k) + (i - k)]
    decreases n
  {
    if n > 0 {
      BlockChars(text, k, n - 1);
      CharAt(text, k + n - 1);
    }
  }

  // ----- UTF-16 units

  /** A scalar value outside the basic plane takes two UTF-16 units. */
  function Utf16Units(c: Scalar): (n: nat)
    ensures n == if Utf8Length(c) == 4 then 2 else 1
  {
    if c >= 0x10000 then 2 else 1
  }

  function Utf16Length(text: Text): nat {
    if text == [] then 0 else Utf16Units(text[0]) + Utf16Length(text[1..])
  }

  /** The UTF-16 length of n characters from k on. */
  function Utf16Span(text: Text, k: nat, n: nat): nat
    requires k + n <= |text|
  {
    if n == 0 then 0 else Utf16Span(text, k, n - 1) + Utf16Units(text[k + n - 1])
  }

  lemma {:induction false} Utf16SpanSum(text: Text, k: nat, m: nat, n: nat)
    requires k + m + n <= |text|
    ensures Utf16Span(text, k, m + n) == Utf16Span(text, k, m) + Utf16Span(text, k + m, n)
    decreases n
  {
    if n > 0 { Utf16SpanSum(text, k, m, n - 1); }
  }

  lemma {:induction false} Utf16SpanIs(text: Text, k: nat, n: nat)
    requires k + n <= |text|
    ensures Utf16Span(text, k, n) == Utf16Length(text[k..k + n])
    decreases n
  {
    if n > 0 {
      Utf16SpanIs(text, k + 1, n - 1);
      Utf16SpanSum(text, k, 1, n - 1);
      assert text[k..k + n][1..] == text[k + 1..k + n];
      assert Utf16Span(text, k, 1) == Utf16Span(text, k, 0) + Utf16Units(text[k]);
    }
  }

  lemma {:induction false} Utf16Ascii(text: Text, k: nat, n: nat)
    requires k + n <= |text| && forall i :: k <= i < k + n ==> text[i] < 0x80
    ensures Utf16Span(text, k, n) == n
    decreases n
  {
    if n > 0 { Utf16Ascii(text, k, n - 1); }
  }

  /** Where characters of four bytes start. */
  function Leads(bytes: Bytes, lo: nat, hi: nat): set<int>
    requires hi <= |bytes|
  {
    set i | lo <= i < hi && bytes[i] >= 0xF0
  }

  lemma EncodedLead(c: Scalar, k: nat)
    requires k < Utf8Length(c)
    ensures Encode(c)[k] >= 0xF0 <==> k == 0 && Utf8Length(c) == 4
  {
  }

  /** Of the bytes of one character only the first can be a lead of four, if it has four. */
  lemma LeadsOfOne(text: Text, k: nat, at: nat, next: nat)
    requires k < |text| && at == Offset(text, k) && next == Offset(text, k + 1)
    ensures next <= |EncodeAll(text)|
    ensures Leads(EncodeAll(text), at, next) == if Utf8Length(text[k]) == 4 then {at} else {}
  {
    var bytes, e := EncodeAll(text), Encode(text[k]);
    EncodedAt(text, k);
    forall i: int | at <= i < next ensures bytes[i] >= 0xF0 <==> i == at && Utf8Length(text[k]) == 4 {
      SliceElement(bytes, at, e, i - at);
      EncodedLead(text[k], i - at);
    }
  }

  lemma LeadsSplit(bytes: Bytes, lo: nat, mid: nat, hi: nat)
    requires lo <= mid <= hi <= |bytes|
    ensures |Leads(bytes, lo, hi)| == |Leads(bytes, lo, mid)| + |Leads(bytes, mid, hi)|
  {
    assert Leads(bytes, lo, hi) == Leads(bytes, lo, mid) + Leads(bytes, mid, hi);
  }

  /** Characters take one unit each and one more for each byte from F0 on among theirs. */
  lemma {:induction false} UnitsOfBytes(text: Text, k: nat, n: nat, at: nat, next: nat)
    requires k + n <= |text| && at == Offset(text, k) && next == Offset(text, k + n)
    ensures at <= next <= |EncodeAll(text)|
    ensures Utf16Span(text, k, n) == n + |Leads(EncodeAll(text), at, next)|
    decreases n
  {
    CharBefore(text, k + n);
    OffsetsRise(text, k, k + n);
    var bytes := EncodeAll(text);
    if n == 0 {
      assert Leads(bytes, at, next) == {};
    } else {
      var m := k + n - 1;
      var mid := Offset(text, m);
      UnitsOfBytes(text, k, n - 1, at, mid);
      LeadsOfOne(text, m, mid, next);
      LeadsSplit(bytes, at, mid, next);
    }
  }
}
