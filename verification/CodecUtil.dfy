/** Headers that name a file's codec, version and segment, and footers that hold the
    checksum of everything before it. */
module CodecUtil {
  import opened ByteStreams

  const CODEC_MAGIC := 0x3fd76c17
  const FOOTER_MAGIC := -CODEC_MAGIC - 1
  const ID_LENGTH := 16
  const FOOTER_LENGTH := 16

  predicate Ascii(s: Bytes) { forall k :: 0 <= k < |s| ==> s[k] < 128 }

  /** Replacing invalid UTF-8 leaves ASCII as it is. */
  ghost predicate KeepsAscii(lossy: Bytes -> Bytes) {
    forall s: Bytes {:trigger lossy(s)} :: Ascii(s) ==> lossy(s) == s
  }

  // ----- headers

  function HeaderLength(codec: Bytes): nat { 9 + |codec| }

  function IndexHeaderLength(codec: Bytes, suffix: Bytes): nat {
    HeaderLength(codec) + ID_LENGTH + 1 + |suffix|
  }

  predicate CodecOk(codec: Bytes) { Ascii(codec) && |codec| < 128 }

  predicate SuffixOk(suffix: Bytes) { Ascii(suffix) && |suffix| < 256 }

  function Header(codec: Bytes, version: int): Bytes
    requires I32(version)
  {
    BeBytes(CODEC_MAGIC) + StringBytes(codec) + BeBytes(AsU32(version))
  }

  function IndexHeader(codec: Bytes, version: int, id: Bytes, suffix: Bytes): Bytes
    requires I32(version) && |suffix| < 256
  {
    Header(codec, version) + id + [|suffix|] + suffix
  }

  /** The bytes of a header and of the start of a footer. */
  lemma MagicBytes(codec: Bytes, version: int, id: Bytes, suffix: Bytes)
    requires |codec| < 128 && I32(version) && |suffix| < 256
    ensures Header(codec, version) == [0x3f, 0xd7, 0x6c, 0x17, |codec|] + codec + BeBytes(AsU32(version))
    ensures IndexHeader(codec, version, id, suffix) ==
            [0x3f, 0xd7, 0x6c, 0x17, |codec|] + codec + BeBytes(AsU32(version)) + id + [|suffix|] + suffix
    ensures FooterHead() == [0xc0, 0x28, 0x93, 0xe8, 0, 0, 0, 0]
  {
    assert BeBytes(CODEC_MAGIC) == [0x3f, 0xd7, 0x6c, 0x17];
    assert StringBytes(codec) == [|codec|] + codec;
  }

  lemma Regroup(a: Bytes, b: Bytes, c: Bytes, d: Bytes)
    ensures a + b + c + d == a + (b + c + d)
  {
  }

  lemma RegroupFive(a: Bytes, b: Bytes, c: Bytes, d: Bytes, e: Bytes)
    ensures a + b + c + d + e == a + (b + c + d + e)
  {
  }

  method WriteHeader(output: Output, codec: Bytes, version: int) returns (r: Result<()>)
    requires I32(version)
    modifies output
    ensures r.Ok? <==> |codec| < 128 && forall k :: 0 <= k < |codec| ==> codec[k] < 128
    ensures output.bytes == old(output.bytes) + if r.Ok? then Header(codec, version) else []
    ensures r.Ok? ==> |output.bytes| == |old(output.bytes)| + HeaderLength(codec)
  {
    if !Ascii(codec) || |codec| >= 128 { return IllegalArgument; }
    output.WriteBeInt(CODEC_MAGIC);
    output.WriteString(codec);
    output.WriteBeInt(version);
    Regroup(old(output.bytes), BeBytes(CODEC_MAGIC), StringBytes(codec), BeBytes(AsU32(version)));
    HeaderParts(codec, version);
    r := Ok(());
  }

  /** A suffix that is not short ASCII is refused after the rest has been written. */
  method WriteIndexHeader(output: Output, codec: Bytes, version: int, id: Bytes, suffix: Bytes) returns (r: Result<()>)
    requires I32(version) && |id| == ID_LENGTH
    modifies output
    ensures r.Ok? <==>
            && |codec| < 128 && (forall k :: 0 <= k < |codec| ==> codec[k] < 128)
            && |suffix| < 256 && (forall k :: 0 <= k < |suffix| ==> suffix[k] < 128)
    ensures r.Ok? ==> output.bytes == old(output.bytes) + IndexHeader(codec, version, id, suffix)
    ensures r.Ok? ==> |output.bytes| == |old(output.bytes)| + IndexHeaderLength(codec, suffix)
    ensures !CodecOk(codec) ==> output.bytes == old(output.bytes)
    ensures CodecOk(codec) && !SuffixOk(suffix) ==> output.bytes == old(output.bytes) + Header(codec, version) + id
  {
    r := WriteHeader(output, codec, version);
    if !r.Ok? { return; }
    output.WriteBytes(id);
    if !Ascii(suffix) || |suffix| >= 256 { return IllegalArgument; }
    output.WriteByte(|suffix|);
    output.WriteBytes(suffix);
    RegroupFive(old(output.bytes), Header(codec, version), id, [|suffix|], suffix);
    IndexHeaderParts(codec, version, id, suffix);
    r := Ok(());
  }

  /** The bytes from p to q are a header of this codec and version. Its name may be spelled
      with a longer length prefix than the writer uses. */
  ghost predicate HeaderAt(lossy: Bytes -> Bytes, b: Bytes, p: nat, codec: Bytes, version: int, q: nat) {
    && p + 4 <= |b| && BeInt(b, p) == CODEC_MAGIC
    && 4 <= q <= |b| && SpelledAt(lossy, b, p + 4, codec, q - 4)
    && BeInt(b, q - 4) == version
  }

  ghost predicate IdAt(b: Bytes, p: nat, id: Bytes) {
    p + ID_LENGTH <= |b| && b[p..p + ID_LENGTH] == id
  }

  ghost predicate SuffixAt(lossy: Bytes -> Bytes, b: Bytes, p: nat, suffix: Bytes, q: nat) {
    && p < |b| && q == p + 1 + b[p] <= |b|
    && (b[p + 1..q] == suffix || (b[p] != 0 && lossy(b[p + 1..q]) == suffix))
  }

  ghost predicate IndexHeaderAt(lossy: Bytes -> Bytes, b: Bytes, p: nat, codec: Bytes, version: int, id: Bytes, suffix: Bytes, m: nat, q: nat) {
    HeaderAt(lossy, b, p, codec, version, m) && IdAndSuffixAt(lossy, b, m, id, suffix, q)
  }

  ghost predicate IdAndSuffixAt(lossy: Bytes -> Bytes, b: Bytes, m: nat, id: Bytes, suffix: Bytes, q: nat) {
    IdAt(b, m, id) && SuffixAt(lossy, b, m + ID_LENGTH, suffix, q)
  }

  method CheckHeader(input: Input, codec: Bytes, min: int, max: int) returns (r: Result<int>)
    requires input.Valid()
    modifies input
    ensures input.Valid() && (old(input.Sequential()) ==> input.Sequential())
    ensures r.Ok? ==> HeaderAt(input.lossy, input.bytes, old(input.pos), codec, r.value, input.pos) && min <= r.value <= max
    ensures forall v: int, q: nat :: HeaderAt(input.lossy, input.bytes, old(input.pos), codec, v, q) ==>
              && input.pos == q && (min <= v <= max ==> r == Ok(v))
              && (v < min ==> r == TooOld) && (min <= v && max < v ==> r == TooNew)
  {
    var magic := input.ReadBeInt();
    if !magic.Ok? { return EndOfFile; }
    if magic.value != CODEC_MAGIC { return Corrupt; }
    r := CheckHeaderNoMagic(input, codec, min, max, old(input.pos));
  }

  /** Checks the rest of a header that starts with the magic at p. */
  method CheckHeaderNoMagic(input: Input, codec: Bytes, min: int, max: int, ghost p: nat) returns (r: Result<int>)
    requires input.Valid() && input.pos == p + 4 && BeInt(input.bytes, p) == CODEC_MAGIC
    modifies input
    ensures input.Valid() && (old(input.Sequential()) ==> input.Sequential())
    ensures r.Ok? ==> HeaderAt(input.lossy, input.bytes, p, codec, r.value, input.pos) && min <= r.value <= max
    ensures forall v: int, q: nat :: HeaderAt(input.lossy, input.bytes, p, codec, v, q) ==>
              && input.pos == q && (min <= v <= max ==> r == Ok(v))
              && (v < min ==> r == TooOld) && (min <= v && max < v ==> r == TooNew)
  {
    var name := input.ReadString();
    if !name.Ok? { return CopyError(name); }
    if name.value != codec { return Corrupt; }
    var version := input.ReadBeInt();
    if !version.Ok? { return EndOfFile; }
    if version.value < min { return TooOld; }
    if version.value > max { return TooNew; }
    r := version;
  }

  function CopyError<A, B>(r: Result<A>): Result<B>
    requires !r.Ok?
  {
    match r
    case EndOfFile => EndOfFile
    case Corrupt => Corrupt
    case TooOld => TooOld
    case TooNew => TooNew
    case IllegalArgument => IllegalArgument
    case IllegalState => IllegalState
  }

  method CheckIndexHeaderId(input: Input, id: Bytes) returns (r: Result<()>)
    requires input.Valid()
    modifies input
    ensures input.Valid() && (old(input.Sequential()) ==> input.Sequential())
    ensures r.Ok? <==> IdAt(input.bytes, old(input.pos), id)
    ensures r.Ok? ==> input.pos == old(input.pos) + ID_LENGTH
  {
    var read := input.ReadBytes(ID_LENGTH);
    if !read.Ok? { return EndOfFile; }
    if read.value != id { return Corrupt; }
    r := Ok(());
  }

  method CheckIndexHeaderSuffix(input: Input, suffix: Bytes) returns (r: Result<()>)
    requires input.Valid()
    modifies input
    ensures input.Valid() && (old(input.Sequential()) ==> input.Sequential())
    ensures r.Ok? ==> SuffixAt(input.lossy, input.bytes, old(input.pos), suffix, input.pos)
    ensures forall q: nat :: SuffixAt(input.lossy, input.bytes, old(input.pos), suffix, q) ==> r.Ok? && q == input.pos
  {
    var n := input.ReadByte();
    if !n.Ok? { return EndOfFile; }
    if n.value == 0 { return if suffix == [] then Ok(()) else Corrupt; }
    var read := input.ReadBytes(n.value);
    if !read.Ok? { return EndOfFile; }
    if read.value == suffix { return Ok(()); }
    if input.lossy(read.value) != suffix { return Corrupt; }
    r := Ok(());
  }

  lemma HeaderUnique(lossy: Bytes -> Bytes, b: Bytes, p: nat, c0: Bytes, v0: int, q0: nat, c1: Bytes, v1: int, q1: nat)
    requires HeaderAt(lossy, b, p, c0, v0, q0) && HeaderAt(lossy, b, p, c1, v1, q1)
    ensures c0 == c1 && v0 == v1 && q0 == q1
  {
  }

  lemma IndexHeaderUnique(lossy: Bytes -> Bytes, b: Bytes, p: nat, codec: Bytes, v0: int, v1: int, id: Bytes, suffix: Bytes,
                          m0: nat, q0: nat, m1: nat, q1: nat)
    requires IndexHeaderAt(lossy, b, p, codec, v0, id, suffix, m0, q0) && IndexHeaderAt(lossy, b, p, codec, v1, id, suffix, m1, q1)
    ensures v0 == v1 && m0 == m1 && q0 == q1
  {
    HeaderUnique(lossy, b, p, codec, v0, m0, codec, v1, m1);
  }

  method CheckIndexHeader(input: Input, codec: Bytes, min: int, max: int, id: Bytes, suffix: Bytes)
    returns (r: Result<int>, ghost m: nat)
    requires input.Valid()
    modifies input
    ensures input.Valid() && (old(input.Sequential()) ==> input.Sequential())
    ensures r.Ok? ==>
              && IndexHeaderAt(input.lossy, input.bytes, old(input.pos), codec, r.value, id, suffix, m, input.pos)
              && min <= r.value <= max
    ensures forall v: int, n: nat, q: nat :: IndexHeaderAt(input.lossy, input.bytes, old(input.pos), codec, v, id, suffix, n, q) ==>
              && (r.Ok? ==> input.pos == q) && (min <= v <= max ==> r == Ok(v))
              && (v < min ==> r == TooOld) && (min <= v && max < v ==> r == TooNew)
  {
    m := 0;
    r := CheckHeader(input, codec, min, max);
    if !r.Ok? { return; }
    m := input.pos;
    ghost var p, b, lossy := old(input.pos), input.bytes, input.lossy;
    var ok := CheckIdAndSuffix(input, id, suffix);
    forall v: int, n: nat, q: nat | IndexHeaderAt(lossy, b, p, codec, v, id, suffix, n, q)
      ensures v == r.value && n == m
    {
      HeaderUnique(lossy, b, p, codec, v, n, codec, r.value, m);
    }
    if !ok.Ok? { r := CopyError(ok); }
  }

  method CheckIdAndSuffix(input: Input, id: Bytes, suffix: Bytes) returns (r: Result<()>)
    requires input.Valid()
    modifies input
    ensures input.Valid() && (old(input.Sequential()) ==> input.Sequential())
    ensures r.Ok? ==> IdAndSuffixAt(input.lossy, input.bytes, old(input.pos), id, suffix, input.pos)
    ensures forall q: nat :: IdAndSuffixAt(input.lossy, input.bytes, old(input.pos), id, suffix, q) ==> r.Ok? && q == input.pos
  {
    r := CheckIndexHeaderId(input, id);
    if !r.Ok? { return; }
    r := CheckIndexHeaderSuffix(input, suffix);
  }

  /** What the index header reader and the header copier look at: a header of any codec and
      version up to q, an id, and a suffix of as many bytes as its length byte says. */
  ghost predicate AnyIndexHeaderAt(lossy: Bytes -> Bytes, b: Bytes, p: nat, codec: Bytes, version: int, q: nat) {
    HeaderAt(lossy, b, p, codec, version, q) && SuffixFits(b, q + ID_LENGTH)
  }

  ghost predicate SuffixFits(b: Bytes, p: nat) { p < |b| && p + 1 + b[p] <= |b| }

  /** Reads a magic, a name and a version. */
  method ReadAnyHeader(input: Input) returns (r: Result<(Bytes, int)>)
    requires input.Valid()
    modifies input
    ensures input.Valid()
    ensures r.Ok? ==> I32(r.value.1) && HeaderAt(input.lossy, input.bytes, old(input.pos), r.value.0, r.value.1, input.pos)
    ensures forall c: Bytes, v: int, q: nat :: HeaderAt(input.lossy, input.bytes, old(input.pos), c, v, q) ==>
              r == Ok((c, v)) && input.pos == q
  {
    var magic := input.ReadBeInt();
    if !magic.Ok? { return EndOfFile; }
    if magic.value != CODEC_MAGIC { return Corrupt; }
    var name := input.ReadString();
    if !name.Ok? { return CopyError(name); }
    var version := input.ReadBeInt();
    if !version.Ok? { return EndOfFile; }
    r := Ok((name.value, version.value));
  }

  /** How many bytes the index header reader takes a header to have, from its name and its
      suffix length byte. */
  function LengthFound(b: Bytes, codec: Bytes, q: nat): nat
    requires q + ID_LENGTH < |b|
  {
    HeaderLength(codec) + ID_LENGTH + 1 + b[q + ID_LENGTH]
  }

  method ReadIndexHeader(input: Input) returns (r: Result<Bytes>, ghost c: Bytes, ghost v: int, ghost q: nat)
    requires input.Valid()
    modifies input
    ensures input.Valid()
    ensures r.Ok? ==>
              && HeaderAt(input.lossy, input.bytes, 0, c, v, q) && q + ID_LENGTH < |input.bytes|
              && LengthFound(input.bytes, c, q) <= |input.bytes| && r.value == input.bytes[..LengthFound(input.bytes, c, q)]
    ensures forall c': Bytes, v': int, q': nat :: HeaderAt(input.lossy, input.bytes, 0, c', v', q') ==>
              && (r.Ok? <==> q' + ID_LENGTH < |input.bytes| && LengthFound(input.bytes, c', q') <= |input.bytes|)
              && (r.Ok? ==> c == c' && v == v' && q == q')
  {
    c, v, q := [], 0, 0;
    var ok := input.Seek(0);
    var header := ReadAnyHeader(input);
    if !header.Ok? { r := CopyError(header); return; }
    c, v, q := header.value.0, header.value.1, input.pos;
    var headerLength := HeaderLength(header.value.0);
    ok := input.Seek(input.pos + ID_LENGTH);
    if !ok.Ok? { r := EndOfFile; return; }
    var suffixLength := input.ReadByte();
    if !suffixLength.Ok? { r := EndOfFile; return; }
    var n := headerLength + ID_LENGTH + 1 + suffixLength.value;
    ok := input.Seek(0);
    r := input.ReadBytes(n);
  }

  /** Copies a header once all of it has been read and its id has been checked. */
  method VerifyAndCopyIndexHeader(input: Input, output: Output, id: Bytes)
    returns (r: Result<()>, ghost c: Bytes, ghost v: int, ghost q: nat)
    requires input.Valid()
    modifies input, output
    ensures input.Valid()
    ensures !r.Ok? ==> output.bytes == old(output.bytes)
    ensures r.Ok? ==>
              && AnyIndexHeaderAt(input.lossy, input.bytes, old(input.pos), c, v, q) && IdAt(input.bytes, q, id)
              && input.pos == q + ID_LENGTH + 1 + input.bytes[q + ID_LENGTH]
              && output.bytes == old(output.bytes) + Header(c, v) + input.bytes[q..input.pos]
    ensures forall c': Bytes, v': int, q': nat :: AnyIndexHeaderAt(input.lossy, input.bytes, old(input.pos), c', v', q') ==>
              (r.Ok? <==> IdAt(input.bytes, q', id) && |input.bytes| >= FOOTER_LENGTH + HeaderLength([])) &&
              (r.Ok? ==> c == c' && v == v' && q == q')
  {
    c, v, q := [], 0, 0;
    if |input.bytes| < FOOTER_LENGTH + HeaderLength([]) { r := Corrupt; return; }
    var header := ReadAnyHeader(input);
    if !header.Ok? { r := CopyError(header); return; }
    c, v, q := header.value.0, header.value.1, input.pos;
    var tail := ReadIdAndSuffix(input, id);
    if !tail.Ok? { r := CopyError(tail); return; }
    CopyHeader(output, header.value.0, header.value.1, id, tail.value.0, tail.value.1);
    r := Ok(());
  }

  /** Reads an id and a suffix of as many bytes as its length byte says. */
  method ReadIdAndSuffix(input: Input, id: Bytes) returns (r: Result<(nat, Bytes)>)
    requires input.Valid()
    modifies input
    ensures input.Valid()
    ensures r.Ok? <==> IdAt(input.bytes, old(input.pos), id) && SuffixFits(input.bytes, old(input.pos) + ID_LENGTH)
    ensures r.Ok? ==>
              && r.value.0 == input.bytes[old(input.pos) + ID_LENGTH]
              && input.pos == old(input.pos) + ID_LENGTH + 1 + r.value.0
              && input.bytes[old(input.pos)..input.pos] == id + [r.value.0] + r.value.1
  {
    var ok := CheckIndexHeaderId(input, id);
    if !ok.Ok? { return CopyError(ok); }
    var n := input.ReadByte();
    if !n.Ok? { return EndOfFile; }
    var suffix := input.ReadBytes(n.value);
    if !suffix.Ok? { return EndOfFile; }
    r := Ok((n.value, suffix.value));
  }

  method CopyHeader(output: Output, codec: Bytes, version: int, id: Bytes, n: nat, suffix: Bytes)
    requires I32(version) && n < 256
    modifies output
    ensures output.bytes == old(output.bytes) + Header(codec, version) + (id + [n] + suffix)
  {
    output.WriteBeInt(CODEC_MAGIC);
    output.WriteString(codec);
    output.WriteBeInt(version);
    Regroup(old(output.bytes), BeBytes(CODEC_MAGIC), StringBytes(codec), BeBytes(AsU32(version)));
    output.WriteBytes(id);
    output.WriteByte(n);
    output.WriteBytes(suffix);
    Regroup(old(output.bytes) + Header(codec, version), id, [n], suffix);
  }

  lemma SliceOfSlice(b: Bytes, p: nat, whole: Bytes, lo: nat, part: Bytes)
    requires p + |whole| <= |b| && b[p..p + |whole|] == whole
    requires lo + |part| <= |whole| && whole[lo..lo + |part|] == part
    ensures b[p + lo..p + lo + |part|] == part
  {
    forall k | 0 <= k < |part| ensures b[p + lo + k] == part[k] {
      assert b[p..p + |whole|][lo + k] == whole[lo + k] == whole[lo..lo + |part|][k];
    }
  }

  lemma HeaderParts(codec: Bytes, version: int)
    requires |codec| < 128 && I32(version)
    ensures var h := Header(codec, version);
            && |h| == HeaderLength(codec)
            && h[0..4] == BeBytes(CODEC_MAGIC) && h[4..5] == [|codec|]
            && h[5..5 + |codec|] == codec && h[5 + |codec|..5 + |codec| + 4] == BeBytes(AsU32(version))
  {
    var m, n := BeBytes(CODEC_MAGIC), StringBytes(codec);
    assert Header(codec, version) == m + [|codec|] + codec + BeBytes(AsU32(version));
  }

  lemma IndexHeaderParts(codec: Bytes, version: int, id: Bytes, suffix: Bytes)
    requires |codec| < 128 && I32(version) && |id| == ID_LENGTH && |suffix| < 256
    ensures var w, h := IndexHeader(codec, version, id, suffix), HeaderLength(codec);
            && |w| == IndexHeaderLength(codec, suffix)
            && w[0..0 + h] == Header(codec, version) && w[h..h + ID_LENGTH] == id
            && w[h + ID_LENGTH..h + ID_LENGTH + 1] == [|suffix|]
            && w[h + ID_LENGTH + 1..h + ID_LENGTH + 1 + |suffix|] == suffix
  {
    HeaderParts(codec, version);
  }

  /** Where the writer's header lies, a header is found, spelled by one length byte. */
  lemma WrittenHeaderAt(lossy: Bytes -> Bytes, b: Bytes, p: nat, codec: Bytes, version: int)
    requires KeepsAscii(lossy) && CodecOk(codec) && I32(version)
    requires p + HeaderLength(codec) <= |b| && b[p..p + HeaderLength(codec)] == Header(codec, version)
    ensures HeaderAt(lossy, b, p, codec, version, p + HeaderLength(codec))
  {
    var h, n := Header(codec, version), |codec|;
    HeaderParts(codec, version);
    SliceOfSlice(b, p, h, 0, BeBytes(CODEC_MAGIC));
    SliceOfSlice(b, p, h, 4, [n]);
    SliceOfSlice(b, p, h, 5, codec);
    SliceOfSlice(b, p, h, 5 + n, BeBytes(AsU32(version)));
    BeIntIff(b, p, CODEC_MAGIC);
    BeIntIff(b, p + 5 + n, version);
    assert b[p + 4] == b[p + 4..p + 4 + 1][0] == n;
    assert lossy(codec) == codec;
  }

  lemma WrittenIndexHeaderAt(lossy: Bytes -> Bytes, b: Bytes, p: nat, codec: Bytes, version: int, id: Bytes, suffix: Bytes, q: nat)
    requires KeepsAscii(lossy) && CodecOk(codec) && SuffixOk(suffix) && I32(version) && |id| == ID_LENGTH
    requires q == p + IndexHeaderLength(codec, suffix) <= |b|
    requires b[p..q] == IndexHeader(codec, version, id, suffix)
    ensures var m := p + HeaderLength(codec);
            && IndexHeaderAt(lossy, b, p, codec, version, id, suffix, m, q)
            && AnyIndexHeaderAt(lossy, b, p, codec, version, m) && b[m + ID_LENGTH] == |suffix|
  {
    var w, h := IndexHeader(codec, version, id, suffix), HeaderLength(codec);
    IndexHeaderParts(codec, version, id, suffix);
    HeaderParts(codec, version);
    assert q == p + |w|;
    SliceOfSlice(b, p, w, 0, Header(codec, version));
    SliceOfSlice(b, p, w, h, id);
    SliceOfSlice(b, p, w, h + ID_LENGTH, [|suffix|]);
    SliceOfSlice(b, p, w, h + ID_LENGTH + 1, suffix);
    WrittenHeaderAt(lossy, b, p, codec, version);
    assert b[p + h + ID_LENGTH] == b[p + h + ID_LENGTH..p + h + ID_LENGTH + 1][0] == |suffix|;
  }

  /** A header written in front of any further bytes, then checked, read and copied. */
  method HeaderRoundTrip(codec: Bytes, version: int, id: Bytes, suffix: Bytes, rest: Bytes, min: int, max: int,
                         checksum: Bytes -> nat, lossy: Bytes -> Bytes)
    returns (checked: Result<int>, at: nat, read: Result<Bytes>, copied: Bytes)
    requires KeepsAscii(lossy) && CodecOk(codec) && SuffixOk(suffix) && I32(version) && |id| == ID_LENGTH
    ensures checked.Ok? <==> min <= version <= max
    ensures checked.Ok? ==> checked.value == version
    ensures version < min ==> checked == TooOld
    ensures min <= version && max < version ==> checked == TooNew
    ensures checked.Ok? ==> at == IndexHeaderLength(codec, suffix)
    ensures read == Ok(IndexHeader(codec, version, id, suffix))
    ensures copied == IndexHeader(codec, version, id, suffix)
  {
    var output := new Output(checksum);
    var ok := WriteIndexHeader(output, codec, version, id, suffix);
    ghost var w, m := IndexHeader(codec, version, id, suffix), HeaderLength(codec);
    var file := output.bytes + rest;
    assert file[0..|w|] == w == file[..|w|];
    WrittenIndexHeaderAt(lossy, file, 0, codec, version, id, suffix, |w|);
    var input := new Input(file, checksum, lossy);
    ghost var n;
    checked, n := CheckIndexHeader(input, codec, min, max, id, suffix);
    at := input.pos;
    ghost var c, v, q;
    read, c, v, q := ReadIndexHeader(input);
    copied := CopyOf(file, codec, version, id, suffix, checksum, lossy);
  }

  lemma CopiedParts(file: Bytes, codec: Bytes, version: int, id: Bytes, suffix: Bytes, h: nat, n: nat)
    requires |codec| < 128 && I32(version) && |id| == ID_LENGTH && |suffix| < 256
    requires IndexHeader(codec, version, id, suffix) <= file && h == HeaderLength(codec) && n == IndexHeaderLength(codec, suffix)
    ensures h <= n <= |file| && [] + Header(codec, version) + file[h..n] == IndexHeader(codec, version, id, suffix)
  {
    var w := IndexHeader(codec, version, id, suffix);
    IndexHeaderParts(codec, version, id, suffix);
    assert file[h..n] == w[h..] && w[..h] == w[0..0 + h];
    assert w == w[..h] + w[h..];
  }

  method CopyOf(file: Bytes, ghost codec: Bytes, ghost version: int, id: Bytes, ghost suffix: Bytes, checksum: Bytes -> nat, lossy: Bytes -> Bytes)
    returns (copied: Bytes)
    requires KeepsAscii(lossy) && CodecOk(codec) && SuffixOk(suffix) && I32(version) && |id| == ID_LENGTH
    requires IndexHeader(codec, version, id, suffix) <= file
    ensures copied == IndexHeader(codec, version, id, suffix)
  {
    ghost var w, h := IndexHeader(codec, version, id, suffix), HeaderLength(codec);
    IndexHeaderParts(codec, version, id, suffix);
    assert file[0..|w|] == w;
    WrittenIndexHeaderAt(lossy, file, 0, codec, version, id, suffix, |w|);
    var input := new Input(file, checksum, lossy);
    var output := new Output(checksum);
    var r, c, v, q := VerifyAndCopyIndexHeader(input, output, id);
    CopiedParts(file, codec, version, id, suffix, h, |w|);
    copied := output.bytes;
  }

  // ----- footers

  function FooterHead(): Bytes { BeBytes(AsU32(FOOTER_MAGIC)) + BeBytes(0) }

  /** A 64-bit integer, big-endian. */
  function BeLongBytes(i: nat): Bytes { BeBytes(i / 0x1_0000_0000) + BeBytes(i % 0x1_0000_0000) }

  /** A file whose footer has been written. */
  function Finished(checksum: Bytes -> nat, body: Bytes): Bytes {
    body + FooterHead() + BeLongBytes(checksum(body + FooterHead()))
  }

  /** A checksum of more than 32 bits is refused after the first half of the footer. */
  method WriteFooter(output: Output) returns (r: Result<()>)
    modifies output
    ensures r.Ok? <==> output.checksum(old(output.bytes) + FooterHead()) < 0x1_0000_0000
    ensures output.bytes == if r.Ok? then Finished(output.checksum, old(output.bytes)) else old(output.bytes) + FooterHead()
  {
    output.WriteBeInt(FOOTER_MAGIC);
    output.WriteBeInt(0);
    assert output.bytes == old(output.bytes) + FooterHead();
    r := WriteCrc(output);
  }

  method WriteCrc(output: Output) returns (r: Result<()>)
    modifies output
    ensures r.Ok? <==> output.checksum(old(output.bytes)) < 0x1_0000_0000
    ensures output.bytes == old(output.bytes) + if r.Ok? then BeLongBytes(output.checksum(old(output.bytes))) else []
  {
    var value := output.checksum(output.bytes);
    if value / 0x1_0000_0000 != 0 { return IllegalState; }
    output.WriteBytes(BeLongBytes(value));
    r := Ok(());
  }

  /** The file ends, 16 bytes after p, in the footer of what is before p. */
  ghost predicate FooterAt(checksum: Bytes -> nat, b: Bytes, p: nat) {
    && |b| == p + FOOTER_LENGTH
    && b == Finished(checksum, b[..p])
    && checksum(b[..p + 8]) < 0x1_0000_0000
  }

  /** A file ends in a footer exactly if its last 16 bytes are the magic, algorithm 0 and,
      as a 64-bit integer, the checksum of all bytes before that integer. */
  lemma FooterIff(checksum: Bytes -> nat, b: Bytes, p: nat)
    requires |b| == p + FOOTER_LENGTH
    ensures FooterAt(checksum, b, p) <==>
            && BeInt(b, p) == FOOTER_MAGIC && BeInt(b, p + 4) == 0
            && BeUnsigned(b, p + 8) == 0 && BeUnsigned(b, p + 12) == checksum(b[..p + 8])
  {
    BeIntIff(b, p, FOOTER_MAGIC);
    BeIntIff(b, p + 4, 0);
    BeUnsignedIff(b, p + 8, 0);
    var c := checksum(b[..p + 8]);
    if c < 0x1_0000_0000 {
      BeUnsignedIff(b, p + 12, c);
      if PartsAt(b, p, c) { PartsAreFinished(checksum, b, p, c); }
      if b == Finished(checksum, b[..p]) { FinishedHasParts(checksum, b, p, c); }
    }
  }

  /** The four parts of the footer of what is before p, with checksum c. */
  ghost predicate PartsAt(b: Bytes, p: nat, c: nat)
    requires |b| == p + FOOTER_LENGTH
  {
    && b[p..p + 4] == BeBytes(AsU32(FOOTER_MAGIC)) && b[p + 4..p + 8] == BeBytes(0)
    && b[p + 8..p + 12] == BeBytes(0) && b[p + 12..p + 16] == BeBytes(c)
  }

  lemma FinishedHasParts(checksum: Bytes -> nat, b: Bytes, p: nat, c: nat)
    requires |b| == p + FOOTER_LENGTH && c == checksum(b[..p + 8]) < 0x1_0000_0000
    requires b == Finished(checksum, b[..p])
    ensures PartsAt(b, p, c)
  {
    FinishedShape(checksum, b[..p]);
  }

  lemma PartsAreFinished(checksum: Bytes -> nat, b: Bytes, p: nat, c: nat)
    requires |b| == p + FOOTER_LENGTH && c == checksum(b[..p + 8]) < 0x1_0000_0000
    requires PartsAt(b, p, c)
    ensures b == Finished(checksum, b[..p])
  {
    HeadAt(b, p);
    assert b == b[..p + 8] + (b[p + 8..p + 12] + b[p + 12..p + 16]);
  }

  lemma HeadAt(b: Bytes, p: nat)
    requires p + 8 <= |b| && b[p..p + 4] == BeBytes(AsU32(FOOTER_MAGIC)) && b[p + 4..p + 8] == BeBytes(0)
    ensures b[..p + 8] == b[..p] + FooterHead()
  {
    assert b[..p + 8] == b[..p] + (b[p..p + 4] + b[p + 4..p + 8]);
  }

  lemma FinishedShape(checksum: Bytes -> nat, body: Bytes)
    ensures var f, p, d := Finished(checksum, body), |body|, checksum(body + FooterHead());
            && |f| == p + FOOTER_LENGTH && f[..p + 8] == body + FooterHead()
            && f[p..p + 4] == BeBytes(AsU32(FOOTER_MAGIC)) && f[p + 4..p + 8] == BeBytes(0)
            && f[p + 8..p + 12] == BeBytes(d / 0x1_0000_0000) && f[p + 12..p + 16] == BeBytes(d % 0x1_0000_0000)
  {
  }

  method ValidateFooter(input: Input) returns (r: Result<()>)
    requires input.Valid()
    modifies input
    ensures input.Valid() && (old(input.Sequential()) ==> input.Sequential())
    ensures r.Ok? <==>
            && |input.bytes| == old(input.pos) + FOOTER_LENGTH
            && BeInt(input.bytes, old(input.pos)) == FOOTER_MAGIC && BeInt(input.bytes, old(input.pos) + 4) == 0
    ensures r.Ok? ==> input.pos == old(input.pos) + 8
  {
    if |input.bytes| - input.pos != FOOTER_LENGTH { return Corrupt; }
    var magic := input.ReadBeInt();
    if magic.value != FOOTER_MAGIC { return Corrupt; }
    var algorithm := input.ReadBeInt();
    if algorithm.value != 0 { return Corrupt; }
    r := Ok(());
  }

  method ReadCrc(input: Input) returns (r: Result<nat>)
    requires input.Valid()
    modifies input
    ensures input.Valid()
    ensures r.Ok? <==> old(input.pos) + 8 <= |input.bytes| && BeUnsigned(input.bytes, old(input.pos)) == 0
    ensures r.Ok? ==> r.value == BeUnsigned(input.bytes, old(input.pos) + 4)
  {
    var b := input.ReadBytes(8);
    if !b.Ok? { return EndOfFile; }
    var value := BeUnsigned(b.value, 0) * 0x1_0000_0000 + BeUnsigned(b.value, 4);
    if value / 0x1_0000_0000 != 0 { return Corrupt; }
    r := Ok(value);
  }

  /** At the start of a footer, accepts it exactly if it is the footer of what was read. */
  method CheckFooter(input: Input) returns (r: Result<nat>)
    requires input.Valid() && input.Sequential()
    modifies input
    ensures r.Ok? <==> FooterAt(input.checksum, input.bytes, old(input.pos))
    ensures r.Ok? ==> r.value == input.checksum(input.bytes[..|input.bytes| - 8])
  {
    var ok := ValidateFooter(input);
    if |input.bytes| == old(input.pos) + FOOTER_LENGTH { FooterIff(input.checksum, input.bytes, old(input.pos)); }
    if !ok.Ok? { return CopyError(ok); }
    var actual := input.checksum(input.digested);
    var expected := ReadCrc(input);
    if !expected.Ok? { return CopyError(expected); }
    if actual != expected.value { return Corrupt; }
    r := Ok(actual);
  }

  /** Accepts exactly the files whose footer has been written, and returns their checksum. */
  method ChecksumEntireFile(file: Bytes, checksum: Bytes -> nat, lossy: Bytes -> Bytes) returns (r: Result<nat>)
    ensures r.Ok? <==> exists body :: file == Finished(checksum, body) && checksum(body + FooterHead()) < 0x1_0000_0000
    ensures r.Ok? ==> |file| >= 8 && r.value == checksum(file[..|file| - 8])
  {
    var input := new Input(file, checksum, lossy);
    if |file| < FOOTER_LENGTH { return Corrupt; }
    var ok := input.SkipTo(|file| - FOOTER_LENGTH);
    r := CheckFooter(input);
    FinishedIff(checksum, file);
  }

  lemma FinishedFooter(checksum: Bytes -> nat, body: Bytes)
    requires checksum(body + FooterHead()) < 0x1_0000_0000
    ensures FooterAt(checksum, Finished(checksum, body), |body|)
  {
    var f := Finished(checksum, body);
    FinishedShape(checksum, body);
    assert f[..|body|] == f[..|body| + 8][..|body|] == body;
  }

  /** A file ends in its footer exactly when it is some finished body. */
  lemma FinishedIff(checksum: Bytes -> nat, file: Bytes)
    requires |file| >= FOOTER_LENGTH
    ensures FooterAt(checksum, file, |file| - FOOTER_LENGTH) <==>
            exists body :: file == Finished(checksum, body) && checksum(body + FooterHead()) < 0x1_0000_0000
  {
    var p := |file| - FOOTER_LENGTH;
    forall body | file == Finished(checksum, body)
      ensures body == file[..p] && file[..p + 8] == body + FooterHead()
    {
    }
    if file == Finished(checksum, file[..p]) {
      assert file[..p + 8] == file[..p] + FooterHead();
    }
  }
}
