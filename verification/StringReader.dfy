/** Reading the characters of a UTF-8 string into caller buffers, with shortcuts for runs
    of ASCII. Every path delivers what plain decoding delivers. */
module StringReader {
  import opened Arithmetic
  import opened Utf8

  /** How many characters fit. */
  function Deliverable(text: Text, k: nat, room: nat): (n: nat)
    requires k <= |text|
    ensures n <= room && k + n <= |text| && (n == room || k + n == |text|)
  {
    if room < |text| - k then room else |text| - k
  }

  /** Reading n characters from k on puts them at position lo and changes nothing else. */
  ghost predicate Delivers(before: seq<int>, after: seq<int>, lo: nat, text: Text, k: nat, n: nat) {
    && k + n <= |text| && lo + n <= |before| == |after|
    && forall j :: 0 <= j < |after| ==> after[j] == if lo <= j < lo + n then text[k + (j - lo)] else before[j]
  }

  lemma DeliversTwice(b0: seq<int>, b1: seq<int>, b2: seq<int>, lo: nat, text: Text, k: nat, m: nat, n: nat)
    requires Delivers(b0, b1, lo, text, k, m) && Delivers(b1, b2, lo + m, text, k + m, n)
    ensures Delivers(b0, b2, lo, text, k, m + n)
  {
    forall j | 0 <= j < |b2|
      ensures b2[j] == if lo <= j < lo + (m + n) then text[k + (j - lo)] else b0[j]
    {
      assert j < |b1| && b1[j] == if lo <= j < lo + m then text[k + (j - lo)] else b0[j];
    }
  }

  lemma DeliversNothing(b: seq<int>, lo: nat, text: Text, k: nat)
    requires k <= |text| && lo <= |b|
    ensures Delivers(b, b, lo, text, k, 0)
  {
  }

  /** What was read so far: the characters delivered and, if counted, how many of them
      take a second UTF-16 unit. */
  ghost predicate Progress(start: seq<int>, now: seq<int>, lo: nat, count: bool, text: Text, k: nat, read: nat, supplementary: nat) {
    && Delivers(start, now, lo, text, k, read)
    && supplementary == if count then Utf16Span(text, k, read) - read else 0
  }

  lemma ProgressTwice(b0: seq<int>, b1: seq<int>, b2: seq<int>, lo: nat, mid: nat, count: bool, text: Text, k: nat, m: nat, sm: nat, n: nat, sn: nat)
    requires Progress(b0, b1, lo, count, text, k, m, sm) && Progress(b1, b2, mid, count, text, k + m, n, sn)
    requires mid == lo + m || n == 0
    ensures Progress(b0, b2, lo, count, text, k, m + n, sm + sn)
  {
    if n == 0 { assert b2 == b1; }
    DeliversTwice(b0, b1, b2, lo, text, k, m, n);
    Utf16SpanSum(text, k, m, n);
  }

  /** What was read: the characters delivered and their number or, if counted, the number
      of UTF-16 units they take. */
  ghost predicate Counted(start: seq<int>, now: seq<int>, lo: nat, count: bool, text: Text, k: nat, read: nat, units: nat) {
    && Delivers(start, now, lo, text, k, read)
    && units == if count then Utf16Span(text, k, read) else read
  }

  lemma CountedTwice(b0: seq<int>, b1: seq<int>, b2: seq<int>, lo: nat, mid: nat, count: bool,
                     text: Text, k: nat, m: nat, um: nat, at: nat, n: nat, un: nat)
    requires Counted(b0, b1, lo, count, text, k, m, um) && Counted(b1, b2, mid, count, text, at, n, un)
    requires mid == lo + m && at == k + m
    ensures Counted(b0, b2, lo, count, text, k, m + n, um + un)
  {
    DeliversTwice(b0, b1, b2, lo, text, k, m, n);
    Utf16SpanSum(text, k, m, n);
  }

  /** Decodes the character at a position into the buffer. */
  method ReadOne(bytes: Bytes, at: nat, buf: array<int>, pos: nat, ghost text: Text, ghost k: nat)
    returns (units: nat, next: nat)
    requires bytes == EncodeAll(text) && k < |text| && at == Offset(text, k) && pos < buf.Length
    modifies buf
    ensures Delivers(old(buf[..]), buf[..], pos, text, k, 1)
    ensures next == Offset(text, k + 1) && (next < |bytes| <==> k + 1 < |text|)
    ensures units == Utf16Units(text[k])
  {
    CharAt(text, k);
    CharAt(text, k + 1);
    ghost var before := buf[..];
    buf[pos] := ValueAt(bytes, at);
    OneChar(before, buf[..], pos, text, k);
    units := if buf[pos] >= 0x10000 then 2 else 1;
    next := at + LengthAt(bytes[at]);
  }

  /** Decodes characters one by one until the room or the text ends. */
  method ReadChars(bytes: Bytes, at0: nat, buf: array<int>, lo: nat, hi: nat, count: bool, ghost text: Text, ghost k: nat)
    returns (read: nat, supplementary: nat, at: nat)
    requires bytes == EncodeAll(text) && k <= |text| && at0 == Offset(text, k) && lo <= hi <= buf.Length
    modifies buf
    ensures read == Deliverable(text, k, hi - lo) && at == Offset(text, k + read)
    ensures Progress(old(buf[..]), buf[..], lo, count, text, k, read, supplementary)
  {
    read, supplementary, at := 0, 0, at0;
    ghost var start, now, m := buf[..], buf[..], k;
    DeliversNothing(start, lo, text, k);
    CharBefore(text, k);
    var pos := lo;
    while pos < hi && at < |bytes|
      invariant lo <= pos <= hi && pos == lo + read && m == k + read <= |text|
      invariant at == Offset(text, m) && (at < |bytes| <==> m < |text|)
      invariant now == buf[..] && Progress(start, now, lo, count, text, k, read, supplementary)
    {
      ghost var before := now;
      var units;
      units, at := ReadOne(bytes, at, buf, pos, text, m);
      now := buf[..];
      var extra := if count && units == 2 then 1 else 0;
      OneProgress(before, now, pos, count, text, m, extra);
      ProgressTwice(start, before, now, lo, pos, count, text, k, read, supplementary, 1, extra);
      supplementary := supplementary + extra;
      read, pos, m := read + 1, pos + 1, m + 1;
    }
  }

  lemma OneProgress(before: seq<int>, after: seq<int>, lo: nat, count: bool, text: Text, k: nat, extra: nat)
    requires k < |text| && Delivers(before, after, lo, text, k, 1)
    requires extra == if count && Utf16Units(text[k]) == 2 then 1 else 0
    ensures Progress(before, after, lo, count, text, k, 1, extra)
  {
    assert Utf16Span(text, k, 1) == Utf16Span(text, k, 0) + Utf16Units(text[k]);
  }

  lemma OneChar(before: seq<int>, after: seq<int>, lo: nat, text: Text, k: nat)
    requires k < |text| && lo < |before| && after == before[lo := text[k]]
    ensures Delivers(before, after, lo, text, k, 1)
  {
  }

  /** Copies a block of ASCII bytes as characters. */
  method CopyBlock(bytes: Bytes, at: nat, n: nat, buf: array<int>, lo: nat, ghost text: Text, ghost k: nat)
    requires bytes == EncodeAll(text) && k <= |text| && at == Offset(text, k)
    requires AsciiBlock(bytes, at, n) && lo + n <= buf.Length
    modifies buf
    ensures Delivers(old(buf[..]), buf[..], lo, text, k, n)
    ensures at + n == Offset(text, k + n) && Utf16Span(text, k, n) == n
  {
    for i := lo to lo + n
      invariant forall j :: lo <= j < i ==> buf[j] == bytes[at + (j - lo)]
      invariant forall j :: 0 <= j < buf.Length && !(lo <= j < i) ==> buf[j] == old(buf[j])
    {
      buf[i] := bytes[at + (i - lo)];
    }
    BlockChars(text, k, n);
    Utf16Ascii(text, k, n);
    forall j | lo <= j < lo + n ensures buf[j] == text[k + (j - lo)] {
      assert text[k + (j - lo)] == bytes[at + (k + (j - lo) - k)];
    }
  }

  method IsAscii(bytes: Bytes, at: nat, n: nat) returns (ok: bool)
    requires at + n <= |bytes|
    ensures ok <==> AsciiBlock(bytes, at, n)
  {
    for i := 0 to n
      invariant forall j :: at <= j < at + i ==> bytes[j] < 0x80
    {
      if bytes[at + i] >= 0x80 { return false; }
    }
    ok := true;
  }

  /** Fills one group of 16 places, at once if the next 16 bytes are ASCII. */
  method ReadGroup(bytes: Bytes, at0: nat, buf: array<int>, lo: nat, count: bool, ghost text: Text, ghost k: nat)
    returns (read: nat, supplementary: nat, at: nat)
    requires bytes == EncodeAll(text) && k <= |text| && at0 == Offset(text, k) && lo + 16 <= buf.Length
    modifies buf
    ensures read == Deliverable(text, k, 16) && at == Offset(text, k + read)
    ensures Progress(old(buf[..]), buf[..], lo, count, text, k, read, supplementary)
  {
    var ascii := false;
    if at0 + 16 <= |bytes| {
      ascii := IsAscii(bytes, at0, 16);
    }
    if ascii {
      CopyBlock(bytes, at0, 16, buf, lo, text, k);
      read, supplementary, at := 16, 0, at0 + 16;
    } else {
      read, supplementary, at := ReadChars(bytes, at0, buf, lo, lo + 16, count, text, k);
    }
  }

  /** Reads whole groups of 16 places. */
  method ReadGroups(bytes: Bytes, at0: nat, buf: array<int>, lo: nat, groups: nat, count: bool, ghost text: Text, ghost k: nat)
    returns (read: nat, supplementary: nat, at: nat)
    requires bytes == EncodeAll(text) && k <= |text| && at0 == Offset(text, k) && lo + 16 * groups <= buf.Length
    modifies buf
    ensures read == Deliverable(text, k, 16 * groups) && at == Offset(text, k + read)
    ensures Progress(old(buf[..]), buf[..], lo, count, text, k, read, supplementary)
  {
    read, supplementary, at := 0, 0, at0;
    ghost var start, now, m := buf[..], buf[..], k;
    DeliversNothing(start, lo, text, k);
    for g := 0 to groups
      invariant m == k + read <= |text| && at == Offset(text, m)
      invariant read == 16 * g || (read < 16 * g && m == |text|)
      invariant now == buf[..] && Progress(start, now, lo, count, text, k, read, supplementary)
    {
      CharBefore(text, m);
      if at >= |bytes| { break; }
      ghost var before := now;
      var pos := lo + 16 * g;
      var r, s;
      r, s, at := ReadGroup(bytes, at, buf, pos, count, text, m);
      now := buf[..];
      ProgressTwice(start, before, now, lo, pos, count, text, k, read, supplementary, r, s);
      read, supplementary, m := read + r, supplementary + s, m + r;
    }
  }

  /** Reads whole groups of 16 places, then the rest of the room. */
  method ReadAsciiRuns(bytes: Bytes, at0: nat, buf: array<int>, lo: nat, hi: nat, count: bool, ghost text: Text, ghost k: nat)
    returns (read: nat, units: nat, at: nat)
    requires bytes == EncodeAll(text) && k <= |text| && at0 == Offset(text, k) && lo <= hi <= buf.Length
    modifies buf
    ensures read == Deliverable(text, k, hi - lo) && at == Offset(text, k + read)
    ensures Counted(old(buf[..]), buf[..], lo, count, text, k, read, units)
  {
    ghost var start := buf[..];
    var groups := (hi - lo) / 16;
    var m, sm;
    m, sm, at := ReadGroups(bytes, at0, buf, lo, groups, count, text, k);
    ghost var before := buf[..];
    var n, sn;
    var mid := lo + 16 * groups;
    n, sn, at := ReadChars(bytes, at, buf, mid, hi, count, text, k + m);
    ProgressTwice(start, before, buf[..], lo, mid, count, text, k, m, sm, n, sn);
    read := m + n;
    units := read + (sm + sn);
  }

  /** The length of the leading run of ASCII blocks, in bytes. */
  method AsciiPrefix(bytes: Bytes, at: nat, toRead: nat) returns (n: nat)
    requires at + toRead <= |bytes|
    ensures n <= toRead && AsciiBlock(bytes, at, n)
  {
    n := 0;
    if toRead >= 64 && bytes[at] < 0x80 && bytes[at + 15] < 0x80 {
      while n + 16 <= toRead
        invariant n <= toRead && AsciiBlock(bytes, at, n)
      {
        var ascii := IsAscii(bytes, at + n, 16);
        if !ascii { break; }
        n := n + 16;
      }
    }
  }

  /** Reads looking for ASCII runs or not. */
  method ReadRest(bytes: Bytes, at0: nat, buf: array<int>, lo: nat, hi: nat, runs: bool, count: bool, ghost text: Text, ghost k: nat)
    returns (read: nat, units: nat, at: nat)
    requires bytes == EncodeAll(text) && k <= |text| && at0 == Offset(text, k) && lo <= hi <= buf.Length
    modifies buf
    ensures read == Deliverable(text, k, hi - lo) && at == Offset(text, k + read)
    ensures Counted(old(buf[..]), buf[..], lo, count, text, k, read, units)
  {
    if runs {
      read, units, at := ReadAsciiRuns(bytes, at0, buf, lo, hi, count, text, k);
    } else {
      var supplementary;
      read, supplementary, at := ReadChars(bytes, at0, buf, lo, hi, count, text, k);
      units := read + supplementary;
    }
  }

  /** Reads with an ASCII prefix copied at once. */
  method ReadUtf8(bytes: Bytes, at0: nat, buf: array<int>, lo: nat, hi: nat, count: bool, ghost text: Text, ghost k: nat)
    returns (read: nat, units: nat, at: nat)
    requires bytes == EncodeAll(text) && k <= |text| && at0 == Offset(text, k) && lo <= hi <= buf.Length
    modifies buf
    ensures read == Deliverable(text, k, hi - lo) && at == Offset(text, k + read)
    ensures Counted(old(buf[..]), buf[..], lo, count, text, k, read, units)
  {
    ghost var start := buf[..];
    CharBefore(text, k);
    var asciiPrefix := AsciiPrefix(bytes, at0, Min(hi - lo, |bytes| - at0));
    CopyBlock(bytes, at0, asciiPrefix, buf, lo, text, k);
    ghost var before, m := buf[..], k + asciiPrefix;
    var mid := lo + asciiPrefix;
    var runs := asciiPrefix != 0 && hi - mid >= 16;
    var n, rest;
    n, rest, at := ReadRest(bytes, at0 + asciiPrefix, buf, mid, hi, runs, count, text, m);
    CountedTwice(start, before, buf[..], lo, mid, count, text, k, asciiPrefix, asciiPrefix, m, n, rest);
    read, units := asciiPrefix + n, asciiPrefix + rest;
  }

  /** Copies the whole request at once if its bytes are ASCII; decodes otherwise. */
  method ReadInto(bytes: Bytes, at0: nat, buf: array<int>, lo: nat, len: nat, count: bool, ghost text: Text, ghost k: nat)
    returns (read: nat, units: nat, at: nat)
    requires bytes == EncodeAll(text) && k <= |text| && at0 == Offset(text, k) && lo + len <= buf.Length
    requires at0 < |bytes|
    modifies buf
    ensures read == Deliverable(text, k, len) && at == Offset(text, k + read)
    ensures Counted(old(buf[..]), buf[..], lo, count, text, k, read, units)
  {
    var toRead := Min(len, |bytes| - at0);
    var ascii := false;
    if toRead >= 16 && bytes[at0] < 0x80 && bytes[at0 + toRead - 1] < 0x80 {
      ascii := IsAscii(bytes, at0, toRead);
    }
    if ascii {
      CopyBlock(bytes, at0, toRead, buf, lo, text, k);
      CharBefore(text, k + toRead);
      return toRead, toRead, at0 + toRead;
    }
    read, units, at := ReadUtf8(bytes, at0, buf, lo, lo + len, count, text, k);
  }

  datatype Result<T> = Ok(value: T) | StreamClosed | OutOfBounds

  /** A character stream over a string. The source is UTF-8; upto characters of the text
      it encodes have been read. */
  class Reader {
    var source: Result<Bytes>
    var next: nat
    ghost var text: Text
    ghost var upto: nat

    ghost predicate Valid()
      reads this
    {
      source.Ok? ==> source.value == EncodeAll(text) && upto <= |text| && next == Offset(text, upto)
    }

    constructor (bytes: Bytes, ghost text: Text)
      requires bytes == EncodeAll(text)
      ensures Valid() && source.Ok? && this.text == text && upto == 0
    {
      source, next, this.text, upto := Ok(bytes), 0, text, 0;
    }

    method Close()
      modifies this
      ensures Valid() && !source.Ok?
    {
      source := StreamClosed;
    }

    /** Reads one character, -1 at the end. */
    method Read() returns (r: Result<int>)
      requires Valid()
      modifies this
      ensures Valid() && source == old(source) && text == old(text)
      ensures !source.Ok? ==> r == StreamClosed && upto == old(upto)
      ensures source.Ok? ==>
                if old(upto) == |text| then r == Ok(-1) && upto == old(upto)
                else r == Ok(text[old(upto)]) && upto == old(upto) + 1
    {
      if !source.Ok? { return StreamClosed; }
      var bytes := source.value;
      CharAt(text, upto);
      if next >= |bytes| { return Ok(-1); }
      r := Ok(ValueAt(bytes, next));
      next := next + LengthAt(bytes[next]);
      upto := upto + 1;
    }

    /** The answer to reading into len places: how many characters, -1 at the end. */
    ghost predicate Answers(r: Result<(int, nat)>, from: nat, len: nat, count: bool)
      reads this
      requires from <= |text|
    {
      var n := Deliverable(text, from, len);
      && r.Ok? && upto == from + n
      && r.value.0 == (if from == |text| && len > 0 then -1 else n)
      && r.value.1 == (if count then Utf16Span(text, from, n) else n)
    }

    /** Reads up to len characters into the buffer from off on. */
    method ReadRangeWithUnits(buf: array<int>, off: nat, len: nat, count: bool) returns (r: Result<(int, nat)>)
      requires Valid()
      modifies this`next, this`upto, buf
      ensures Valid()
      ensures !source.Ok? ==> r == StreamClosed
      ensures source.Ok? && off + len > buf.Length ==> r == OutOfBounds
      ensures !source.Ok? || off + len > buf.Length ==> buf[..] == old(buf[..]) && upto == old(upto)
      ensures source.Ok? && off + len <= buf.Length ==>
                && Answers(r, old(upto), len, count)
                && Delivers(old(buf[..]), buf[..], off, text, old(upto), upto - old(upto))
      ensures source.Ok? ==> old(next) <= next <= |source.value|
      ensures source.Ok? && off + len <= buf.Length && count ==>
                r.value.1 == (upto - old(upto)) + |set i | old(next) <= i < next && source.value[i] >= 0xF0|
    {
      ghost var from, at0, bytes0 := upto, next, EncodeAll(text);
      r := ReadRange(buf, off, len, count);
      if source.Ok? {
        OffsetsRise(text, from, upto);
        CharBefore(text, upto);
        UnitsOfBytes(text, from, upto - from, at0, next);
        assert Leads(bytes0, at0, next) == set i | at0 <= i < next && bytes0[i] >= 0xF0;
      }
    }

    method ReadRange(buf: array<int>, off: nat, len: nat, count: bool) returns (r: Result<(int, nat)>)
      requires Valid()
      modifies this`next, this`upto, buf
      ensures Valid()
      ensures !source.Ok? ==> r == StreamClosed
      ensures source.Ok? && off + len > buf.Length ==> r == OutOfBounds
      ensures !source.Ok? || off + len > buf.Length ==> buf[..] == old(buf[..]) && upto == old(upto) && next == old(next)
      ensures source.Ok? ==> upto >= old(upto)
      ensures source.Ok? && off + len <= buf.Length ==>
                && Answers(r, old(upto), len, count)
                && Delivers(old(buf[..]), buf[..], off, text, old(upto), upto - old(upto))
    {
      if !source.Ok? { return StreamClosed; }
      if off + len > buf.Length { return OutOfBounds; }
      var bytes := source.value;
      CharBefore(text, upto);
      if next >= |bytes| {
        DeliversNothing(buf[..], off, text, upto);
        return Ok((if len == 0 then 0 else -1, 0));
      }
      var read, units, at := ReadInto(bytes, next, buf, off, len, count, text, upto);
      next := at;
      upto := upto + read;
      return Ok((read, units));
    }
  }

  lemma DeliveredSlice(before: seq<int>, after: seq<int>, text: Text, k: nat, n: nat)
    requires Delivers(before, after, 0, text, k, n)
    ensures after[..n] == text[k..k + n]
  {
    forall j | 0 <= j < n ensures after[..n][j] == text[k..k + n][j] {
      assert after[j] == text[k + (j - 0)];
    }
  }

  /** What reading n characters from k on gives. */
  ghost predicate Gives(text: Text, k: nat, n: nat, chars: seq<int>, units: nat) {
    k + n <= |text| && chars == text[k..k + n] && units == Utf16Span(text, k, n)
  }

  /** Reads once into a buffer of the given size and takes what was read. */
  method ReadOnce(reader: Reader, size: nat) returns (chars: seq<int>, units: nat)
    requires reader.Valid() && reader.source.Ok?
    modifies reader`next, reader`upto
    ensures reader.Valid() && reader.upto == old(reader.upto) + Deliverable(reader.text, old(reader.upto), size)
    ensures Gives(reader.text, old(reader.upto), reader.upto - old(reader.upto), chars, units)
  {
    ghost var from := reader.upto;
    var buf := new int[size];
    ghost var before := buf[..];
    var r := reader.ReadRangeWithUnits(buf, 0, size, true);
    var n := if r.value.0 == -1 then 0 else r.value.0;
    DeliveredSlice(before, buf[..], reader.text, from, n);
    chars, units := buf[..][..n], r.value.1;
  }

  function Sum(sizes: seq<nat>): nat {
    if sizes == [] then 0 else Sum(sizes[..|sizes| - 1]) + sizes[|sizes| - 1]
  }

  /** Two reads, one after the other, are one. */
  lemma ReadsJoin(text: Text, k: nat, m: nat, n: nat, mid: nat, first: seq<int>, second: seq<int>, u: nat, v: nat)
    requires Gives(text, k, m, first, u) && mid == k + m && Gives(text, mid, n, second, v)
    ensures Gives(text, k, m + n, first + second, u + v)
  {
    Utf16SpanSum(text, k, m, n);
  }

  /** Reads with buffers of the given sizes, one after the other. */
  method ReadMany(reader: Reader, sizes: seq<nat>) returns (chars: seq<int>, units: nat)
    requires reader.Valid() && reader.source.Ok?
    modifies reader`next, reader`upto
    ensures reader.Valid() && reader.upto == old(reader.upto) + Deliverable(reader.text, old(reader.upto), Sum(sizes))
    ensures chars == reader.text[old(reader.upto)..reader.upto]
    ensures units == Utf16Length(chars)
    ensures old(reader.next) <= reader.next <= |reader.source.value|
    ensures units == |chars| + |set i | old(reader.next) <= i < reader.next && reader.source.value[i] >= 0xF0|
  {
    chars, units := ReadPieces(reader, sizes);
    ghost var from, at0, bytes := old(reader.upto), old(reader.next), EncodeAll(reader.text);
    UnitsOfBytes(reader.text, from, reader.upto - from, at0, reader.next);
    assert Leads(bytes, at0, reader.next) == set i | at0 <= i < reader.next && bytes[i] >= 0xF0;
    Utf16SpanIs(reader.text, from, reader.upto - from);
  }

  method ReadPieces(reader: Reader, sizes: seq<nat>) returns (chars: seq<int>, units: nat)
    requires reader.Valid() && reader.source.Ok?
    modifies reader`next, reader`upto
    ensures reader.Valid() && reader.upto == old(reader.upto) + Deliverable(reader.text, old(reader.upto), Sum(sizes))
    ensures Gives(reader.text, old(reader.upto), reader.upto - old(reader.upto), chars, units)
  {
    chars, units := [], 0;
    ghost var from, text, n := reader.upto, reader.text, 0;
    for i := 0 to |sizes|
      invariant reader.Valid() && reader.upto == from + n && n == Deliverable(text, from, Sum(sizes[..i]))
      invariant Gives(text, from, n, chars, units)
    {
      ghost var mid := reader.upto;
      assert sizes[..i + 1][..i] == sizes[..i];
      var more, extra := ReadOnce(reader, sizes[i]);
      ReadsJoin(text, from, n, reader.upto - mid, mid, chars, more, units, extra);
      chars, units, n := chars + more, units + extra, reader.upto - from;
    }
    assert sizes[..|sizes|] == sizes;
  }
}
