/**
 * Chunk parsing (RFC 2083, section 3): the parser state, and a reference parser
 * that always takes the smallest unit the state can take. A unit never depends
 * on how the stream was split into calls, so neither does the reference.
 */
module PngChunks {
  import opened Basics
  import opened PngFormat

  datatype State = Initial | FindChunkHeader | HandleChunk | CheckCrc | Eof | Error

  /** I is whatever the IDAT payload is folded into. */
  datatype Parser<I> = Parser(
    state: State,
    chunkType: nat,
    remain: nat,
    crc: bv32,
    hdr: Header,
    channels: nat,                // 0 until IHDR has been read
    palette: Option<seq<byte>>,   // allocated when PLTE begins
    nPalettes: nat,
    trans: Option<seq<byte>>,     // allocated when tRNS begins
    nTrans: nat,
    idatSeen: bool,
    gamma: Option<nat>,
    idat: I)

  /** What becomes of an IDAT byte on offer: taken, left until something changes, or part of a broken stream. */
  datatype Taken<I> = Took(i: I) | Waits | Broken

  type IdatStep<!I> = (I, byte) -> Taken<I>

  const IHDR := 0x49484452
  const PLTE := 0x504c5445
  const IDAT := 0x49444154
  const IEND := 0x49454e44
  const tRNS := 0x74524e53
  const gAMA := 0x67414d41

  const Signature: seq<byte> := [137, 80, 78, 71, 13, 10, 26, 10]

  function Start<I>(idat: I): Parser<I> {
    Parser(Initial, 0, 0, 0, Header(0, 0, 0, 0, 0, 0, 0), 0, None, 0, None, 0, false, None, idat)
  }

  // ----- numbers and check values on the wire -----

  function ReadU32(b: seq<byte>): nat
    requires |b| == 4
  {
    b[0] as nat * 0x100_0000 + b[1] as nat * 0x1_0000 + b[2] as nat * 0x100 + b[3]
  }

  function WriteU32(n: nat): (b: seq<byte>)
    requires n < U32
    ensures |b| == 4
  {
    [n / 0x100_0000, n / 0x1_0000 % 0x100, n / 0x100 % 0x100, n % 0x100]
  }

  lemma U32RoundTrip(n: nat)
    requires n < U32
    ensures ReadU32(WriteU32(n)) == n
  {
    var h := n / 0x1_0000;
    assert h / 0x100 == n / 0x100_0000;
  }

  lemma U32Injective(a: seq<byte>)
    requires |a| == 4
    ensures ReadU32(a) < U32 && WriteU32(ReadU32(a)) == a
  {
    var n, high, mid := ReadU32(a), a[0] as nat * 256 + a[1], (a[0] as nat * 256 + a[1]) * 256 + a[2];
    assert n == mid * 256 + a[3];
    DivOfShifted(mid, 256, a[3]);
    DivOfShifted(high, 256, a[2]);
    DivOfShifted(a[0], 256, a[1]);
    DivTwice(n, 256, 256, 0x1_0000);
    DivTwice(n, 0x1_0000, 256, 0x100_0000);
  }

  function CrcBits(c: bv32, n: nat): bv32
    decreases n
  {
    if n == 0 then c else CrcBits(Shifted(c), n - 1)
  }

  function Shifted(c: bv32): bv32 { (c >> 1) ^ (if c & 1 == 1 then 0xEDB88320 else 0) }

  function CrcByte(c: bv32, b: byte): bv32 { CrcBits(c ^ (b as bv32), 8) }

  function CrcFold(c: bv32, s: seq<byte>): bv32
    decreases |s|
  {
    if s == [] then c else CrcFold(CrcByte(c, s[0]), s[1..])
  }

  /** The CRC of section 3.4, continued from an earlier value; 0 starts one. */
  function Crc(crc: bv32, s: seq<byte>): bv32 { Flip(CrcFold(Flip(crc), s)) }

  function Flip(c: bv32): bv32 { !c }

  lemma OneBit(c: bv32, n: nat, d: bv32)
    requires n >= 1 && d == Shifted(c)
    ensures CrcBits(c, n) == CrcBits(d, n - 1)
  {
  }

  lemma FourBits(c: bv32, n: nat, c1: bv32, c2: bv32, c3: bv32, c4: bv32)
    requires n >= 4 && c1 == Shifted(c) && c2 == Shifted(c1) && c3 == Shifted(c2) && c4 == Shifted(c3)
    ensures CrcBits(c, n) == CrcBits(c4, n - 4)
  {
    hide CrcBits, Shifted;
    OneBit(c, n, c1);
    OneBit(c1, n - 1, c2);
    OneBit(c2, n - 2, c3);
    OneBit(c3, n - 3, c4);
  }

  lemma FoldFour(c: bv32, s: seq<byte>)
    requires |s| == 4
    ensures CrcFold(c, s) == CrcByte(CrcByte(CrcByte(CrcByte(c, s[0]), s[1]), s[2]), s[3])
  {
    FoldTwo(c, s);
    FoldTwo(CrcByte(CrcByte(c, s[0]), s[1]), s[2..]);
    assert s[2..][2..] == [];
  }

  lemma FoldTwo(c: bv32, s: seq<byte>)
    requires |s| >= 2
    ensures CrcFold(c, s) == CrcFold(CrcByte(CrcByte(c, s[0]), s[1]), s[2..])
  {
    assert CrcFold(c, s) == CrcFold(CrcByte(c, s[0]), s[1..]);
    assert s[1..][1..] == s[2..];
  }

  lemma AfterI()
    ensures CrcByte(0xffffffff, 'I' as int) == 0x22fde946
  {
    FourBits(0xffffffb6, 8, 0x7fffffdb, 0xd2477ccd, 0x849b3d46, 0x424d9ea3);
    FourBits(0x424d9ea3, 4, 0xcc9e4c71, 0x8bf7a518, 0x45fbd28c, 0x22fde946);
  }

  lemma AfterE()
    ensures CrcByte(0x22fde946, 'E' as int) == 0x992bac53
  {
    FourBits(0x22fde903, 8, 0xfcc677a1, 0x93dbb8f0, 0x49eddc78, 0x24f6ee3c);
    FourBits(0x24f6ee3c, 4, 0x127b771e, 0x093dbb8f, 0xe9265ee7, 0x992bac53);
  }

  lemma AfterN()
    ensures CrcByte(0x992bac53, 'N' as int) == 0x639f4775
  {
    FourBits(0x992bac1d, 8, 0xa12d552e, 0x5096aa97, 0xc5f3d66b, 0x8f416815);
    FourBits(0x8f416815, 4, 0xaa18372a, 0x550c1b95, 0xc73e8eea, 0x639f4775);
  }

  lemma AfterD()
    ensures CrcByte(0x639f4775, 'D' as int) == 0x51bd9f7d
  {
    FourBits(0x639f4731, 8, 0xdc7720b8, 0x6e3b905c, 0x371dc82e, 0x1b8ee417);
    FourBits(0x1b8ee417, 4, 0xe07ff12b, 0x9d877bb5, 0xa37b3efa, 0x51bd9f7d);
  }

  /** The polynomial is the standard's: every PNG file ends with these four bytes, the check value of its empty
      IEND chunk. */
  lemma EndCheckValue()
    ensures Crc(0, ['I' as int, 'E' as int, 'N' as int, 'D' as int]) == 0xAE426082
  {
    hide CrcByte, CrcFold;
    AfterI();
    AfterE();
    AfterN();
    AfterD();
    FoldFour(0xffffffff, ['I' as int, 'E' as int, 'N' as int, 'D' as int]);
  }

  /** Chunk types and the signature are the letters that name them, first letter in the high-order byte. */
  lemma ChunkNames()
    ensures ReadU32(['I' as int, 'H' as int, 'D' as int, 'R' as int]) == IHDR
    ensures ReadU32(['P' as int, 'L' as int, 'T' as int, 'E' as int]) == PLTE
    ensures ReadU32(['I' as int, 'D' as int, 'A' as int, 'T' as int]) == IDAT
    ensures ReadU32(['I' as int, 'E' as int, 'N' as int, 'D' as int]) == IEND
    ensures ReadU32(['t' as int, 'R' as int, 'N' as int, 'S' as int]) == tRNS
    ensures ReadU32(['g' as int, 'A' as int, 'M' as int, 'A' as int]) == gAMA
    ensures Signature[1..] == ['P' as int, 'N' as int, 'G' as int, '\r' as int, '\n' as int, 26, '\n' as int]
  {
  }

  lemma {:induction false} CrcFoldConcat(c: bv32, s: seq<byte>, t: seq<byte>)
    ensures CrcFold(c, s + t) == CrcFold(CrcFold(c, s), t)
    decreases |s|
  {
    hide CrcByte;
    if s == [] {
      assert s + t == t;
    } else {
      assert (s + t)[1..] == s[1..] + t && (s + t)[0] == s[0];
      CrcFoldConcat(CrcByte(c, s[0]), s[1..], t);
    }
  }

  /** A running check value does not see where the data was split. */
  lemma CrcConcat(c: bv32, s: seq<byte>, t: seq<byte>)
    ensures Crc(c, s + t) == Crc(Crc(c, s), t)
  {
    hide CrcFold, Flip;
    CrcFoldConcat(Flip(c), s, t);
    FlipTwice(CrcFold(Flip(c), s));
  }

  lemma FlipTwice(c: bv32)
    ensures Flip(Flip(c)) == c
  {
  }

  // ----- what holds between steps -----

  predicate IsRgb(colorType: nat) { colorType == 2 || colorType == 6 }

  /** min(256, 2^depth). */
  function PaletteLimit(depth: nat): nat {
    if depth >= 8 then 256 else [1, 2, 4, 8, 16, 32, 64, 128][depth]
  }

  lemma PaletteLimitIs(depth: nat)
    ensures PaletteLimit(depth) == if depth < 8 then Power(2, depth) else 256
  {
    assert Power(2, 1) == 2 && Power(2, 2) == 4 && Power(2, 3) == 8 && Power(2, 4) == 16;
    assert Power(2, 5) == 32 && Power(2, 6) == 64 && Power(2, 7) == 128;
  }

  /** The palette buffer is exactly as long as the entries still to come make it. */
  ghost predicate PaletteFits<I>(p: Parser<I>) {
    && (p.palette.None? ==> p.nPalettes == 0)
    && (p.palette.Some? ==> 3 * p.nPalettes <= |p.palette.value|)
    && (p.state.HandleChunk? && p.chunkType == PLTE ==>
          p.palette.Some? && p.remain % 3 == 0 && 3 * p.nPalettes + p.remain == |p.palette.value|)
  }

  ghost predicate TransFits<I>(p: Parser<I>) {
    && (p.trans.None? ==> p.nTrans == 0)
    && (p.trans.Some? ==>
          match p.hdr.colorType
          case 3 => p.nTrans <= |p.trans.value|
          case 0 => p.nTrans <= 1 && |p.trans.value| == 2
          case 2 => p.nTrans <= 1 && |p.trans.value| == 6
          case _ => false)
    && (p.state.HandleChunk? && p.chunkType == tRNS ==>
          p.trans.Some? && p.nTrans * TransUnit(p.hdr.colorType) + p.remain == |p.trans.value|)
  }

  function TransUnit(colorType: nat): (n: nat)
    ensures n > 0
  {
    match colorType
    case 3 => 1
    case 0 => 2
    case _ => 6
  }

  ghost predicate HeaderFits<I>(p: Parser<I>) {
    && (p.channels == 0 ==> p.palette.None? && p.trans.None? && !p.idatSeen)
    && (p.channels != 0 && !p.state.Error? ==>
          p.channels == Channels(p.hdr.colorType) && LegalDepth(p.hdr.colorType, p.hdr.depth))
    && (p.idatSeen && p.hdr.colorType == 3 ==> p.palette.Some?)
    && (p.state.HandleChunk? && p.chunkType == IHDR ==> p.remain == 13 && p.channels == 0)
    && (p.state.HandleChunk? && p.chunkType == IDAT ==> p.remain > 0)
    && (p.state.HandleChunk? && p.chunkType == IEND ==> p.remain == 0)
  }

  ghost predicate Fits<I>(p: Parser<I>) {
    PaletteFits(p) && TransFits(p) && HeaderFits(p)
  }

  // ----- one unit -----

  /** The bytes the next unit of a chunk's payload takes. */
  function PayloadUnit<I>(p: Parser<I>): nat {
    if p.remain == 0 then 0
    else if p.chunkType == IHDR then 13
    else if p.chunkType == PLTE then 3
    else if p.chunkType == tRNS then TransUnit(p.hdr.colorType)
    else if p.chunkType == gAMA then 4
    else 1
  }

  function Need<I>(p: Parser<I>): nat {
    match p.state
    case Initial => 8
    case FindChunkHeader => 8
    case HandleChunk => PayloadUnit(p)
    case CheckCrc => 4
    case Eof => 1
    case Error => 0
  }

  /** Fewer payload bytes left than a unit takes: no further input changes anything. */
  predicate Stuck<I>(p: Parser<I>) { p.state.HandleChunk? && p.remain < PayloadUnit(p) }

  predicate Halted<I>(p: Parser<I>) { p.state.Error? || Stuck(p) }

  /** The byte on offer is IDAT payload that inflate does not take: neither are the bytes behind it. */
  predicate Waiting<I>(f: IdatStep<I>, p: Parser<I>, buf: seq<byte>) {
    p.state.HandleChunk? && p.chunkType == IDAT && p.remain > 0 && buf != [] && f(p.idat, buf[0]).Waits?
  }

  /** No further input changes anything, and there has been no error. */
  predicate Stalled<I>(f: IdatStep<I>, p: Parser<I>, buf: seq<byte>) { Stuck(p) || Waiting(f, p, buf) }

  function Fail<I>(p: Parser<I>): Parser<I> { p.(state := Error) }

  /** The sanity checks and allocations made when a chunk header has been read. */
  function BeginChunk<I>(p: Parser<I>): Parser<I> {
    if p.chunkType == IHDR then
      if p.remain != 13 || p.channels != 0 then Fail(p) else p
    else if p.chunkType == IDAT then
      if p.remain == 0 || p.channels == 0 || (p.hdr.colorType == 3 && p.palette.None?) then Fail(p)
      else p.(idatSeen := true)
    else if p.chunkType == PLTE then
      if p.remain == 0 || p.channels == 0 || p.palette.Some? || !(p.hdr.colorType == 3 || IsRgb(p.hdr.colorType))
         || p.remain % 3 != 0 || p.remain / 3 > PaletteLimit(p.hdr.depth)
      then Fail(p) else p.(palette := Some(Zeros(p.remain)), nPalettes := 0)
    else if p.chunkType == IEND then
      if !p.idatSeen || p.remain > 0 then Fail(p) else p
    else if p.chunkType == tRNS then
      if p.remain == 0 || p.channels == 0 || p.trans.Some? || !TransSizeOk(p.hdr, p.remain)
      then Fail(p) else p.(trans := Some(Zeros(p.remain)), nTrans := 0)
    else p
  }

  predicate TransSizeOk(h: Header, size: nat) {
    match h.colorType
    case 3 => size <= PaletteLimit(h.depth)
    case 0 => size == 2
    case 2 => size == 6
    case _ => false
  }

  function ReadHeader(b: seq<byte>): Header
    requires |b| == 13
  {
    Header(ReadU32(b[..4]), ReadU32(b[4..8]), b[8], b[9], b[10], b[11], b[12])
  }

  /** The 13 bytes of IHDR, in the standard's order. */
  lemma HeaderLayout(b: seq<byte>)
    requires |b| == 13
    ensures var h := ReadHeader(b);
            && BigEndian(h.width, b[..4]) && BigEndian(h.height, b[4..8])
            && [h.depth, h.colorType, h.compression, h.filter, h.interlace] == b[8..]
  {
    U32Injective(b[..4]);
    U32Injective(b[4..8]);
  }

  /** b is n, the most significant byte first. */
  predicate BigEndian(n: nat, b: seq<byte>) {
    |b| == 4 && n == ((b[0] as nat * 256 + b[1]) * 256 + b[2]) * 256 + b[3]
  }

  predicate HeaderOk(h: Header) {
    LegalDepth(h.colorType, h.depth) && h.compression == 0 && h.filter == 0
  }

  /** The combinations of colour type and bit depth the standard allows, and the samples each pixel then has. */
  lemma HeaderTable(h: Header)
    ensures HeaderOk(h) <==> h.compression == 0 && h.filter == 0
                             && (h.colorType, h.depth) in {(0, 1), (0, 2), (0, 4), (0, 8), (0, 16), (2, 8), (2, 16),
                                                           (3, 1), (3, 2), (3, 4), (3, 8), (4, 8), (4, 16),
                                                           (6, 8), (6, 16)}
    ensures HeaderOk(h) ==>
              Channels(h.colorType) == (if h.colorType in {2, 6} then 3 else 1) + if h.colorType in {4, 6} then 1 else 0
  {
  }

  /** Bytes of payload taken: fewer remain, the check value covers them. */
  function Consume<I>(p: Parser<I>, b: seq<byte>): Parser<I>
    requires |b| <= p.remain
  {
    p.(remain := p.remain - |b|, crc := Crc(p.crc, b), state := if p.remain == |b| then CheckCrc else HandleChunk)
  }

  function Overwrite(s: seq<byte>, at: nat, b: seq<byte>): seq<byte>
    requires at + |b| <= |s|
  {
    s[..at] + b + s[at + |b|..]
  }

  /** One unit of payload. */
  function Payload<I>(f: IdatStep<I>, p: Parser<I>, b: seq<byte>): Parser<I>
    requires Fits(p) && p.state.HandleChunk? && |b| == PayloadUnit(p) <= p.remain
  {
    if p.remain == 0 then p.(state := CheckCrc)
    else if p.chunkType == IHDR then
      var q := p.(hdr := ReadHeader(b), channels := Channels(b[9]));
      if HeaderOk(q.hdr) then Consume(q, b) else Fail(q)
    else if p.chunkType == PLTE then
      Consume(p.(palette := Some(Overwrite(p.palette.value, 3 * p.nPalettes, b)), nPalettes := p.nPalettes + 1), b)
    else if p.chunkType == tRNS then
      Consume(p.(trans := Some(Overwrite(p.trans.value, p.nTrans, b)), nTrans := p.nTrans + 1), b)
    else if p.chunkType == gAMA then Consume(p.(gamma := Some(ReadU32(b))), b)
    else if p.chunkType == IDAT then
      match f(p.idat, b[0])
      case Took(i) => Consume(p.(idat := i), b)
      case Waits => p
      case Broken => Fail(p)
    else Consume(p, b)
  }

  function Unit<I>(f: IdatStep<I>, p: Parser<I>, b: seq<byte>): Parser<I>
    requires Fits(p) && !Halted(p) && |b| == Need(p)
  {
    match p.state
    case Initial => if b == Signature then p.(state := FindChunkHeader) else Fail(p)
    case FindChunkHeader =>
      BeginChunk(p.(remain := ReadU32(b[..4]), chunkType := ReadU32(b[4..]), crc := Crc(0, b[4..]),
                    state := HandleChunk))
    case HandleChunk => Payload(f, p, b)
    case CheckCrc =>
      if ReadU32(b) != p.crc as nat then Fail(p)
      else p.(state := if p.chunkType == IEND then Eof else FindChunkHeader)
    case Eof => p
  }

  lemma BeginChunkFits<I>(p: Parser<I>, q: Parser<I>)
    requires Fits(p) && p.state.FindChunkHeader?
    requires q == p.(remain := q.remain, chunkType := q.chunkType, crc := q.crc, state := HandleChunk)
    ensures Fits(BeginChunk(q))
  {
    BeginPaletteFits(p, q);
    BeginTransFits(p, q);
    BeginHeaderFits(p, q);
    hide BeginChunk, PaletteFits, TransFits, HeaderFits;
  }

  lemma BeginPaletteFits<I>(p: Parser<I>, q: Parser<I>)
    requires PaletteFits(p) && HeaderFits(p) && p.state.FindChunkHeader?
    requires q == p.(remain := q.remain, chunkType := q.chunkType, crc := q.crc, state := HandleChunk)
    ensures PaletteFits(BeginChunk(q))
  {
    hide PaletteLimit, TransSizeOk;
  }

  lemma BeginTransFits<I>(p: Parser<I>, q: Parser<I>)
    requires TransFits(p) && HeaderFits(p) && p.state.FindChunkHeader?
    requires q == p.(remain := q.remain, chunkType := q.chunkType, crc := q.crc, state := HandleChunk)
    ensures TransFits(BeginChunk(q))
  {
    hide PaletteLimit;
  }

  lemma BeginHeaderFits<I>(p: Parser<I>, q: Parser<I>)
    requires HeaderFits(p) && p.state.FindChunkHeader?
    requires q == p.(remain := q.remain, chunkType := q.chunkType, crc := q.crc, state := HandleChunk)
    ensures HeaderFits(BeginChunk(q))
  {
    hide PaletteLimit, TransSizeOk;
  }

  lemma PayloadFits<I>(f: IdatStep<I>, p: Parser<I>, b: seq<byte>)
    requires Fits(p) && p.state.HandleChunk? && |b| == PayloadUnit(p) <= p.remain
    ensures Fits(Payload(f, p, b))
  {
    PayloadPaletteFits(f, p, b);
    PayloadTransFits(f, p, b);
    PayloadHeaderFits(f, p, b);
    hide Payload, PaletteFits, TransFits, HeaderFits;
  }

  lemma PayloadPaletteFits<I>(f: IdatStep<I>, p: Parser<I>, b: seq<byte>)
    requires Fits(p) && p.state.HandleChunk? && |b| == PayloadUnit(p) <= p.remain
    ensures PaletteFits(Payload(f, p, b))
  {
    hide Crc, ReadU32, TransFits, HeaderOk, TransUnit;
  }

  lemma PayloadTransFits<I>(f: IdatStep<I>, p: Parser<I>, b: seq<byte>)
    requires Fits(p) && p.state.HandleChunk? && |b| == PayloadUnit(p) <= p.remain
    ensures TransFits(Payload(f, p, b))
  {
    hide Crc, ReadU32, PaletteFits, HeaderOk;
  }

  lemma PayloadHeaderFits<I>(f: IdatStep<I>, p: Parser<I>, b: seq<byte>)
    requires Fits(p) && p.state.HandleChunk? && |b| == PayloadUnit(p) <= p.remain
    ensures HeaderFits(Payload(f, p, b))
  {
    hide Crc, ReadU32;
  }

  /** Outside a chunk's payload only the buffers' sizes matter. */
  lemma QuietFits<I>(p: Parser<I>, st: State)
    requires Fits(p) && !p.state.HandleChunk? && !p.state.Error? && !st.HandleChunk?
    ensures Fits(p.(state := st))
  {
  }

  lemma UnitFits<I>(f: IdatStep<I>, p: Parser<I>, b: seq<byte>)
    requires Fits(p) && !Halted(p) && |b| == Need(p)
    ensures Fits(Unit(f, p, b))
  {
    hide Fits, Crc, ReadU32, BeginChunk, Payload, PayloadUnit;
    match p.state
    case Initial => QuietFits(p, FindChunkHeader); QuietFits(p, Error);
    case FindChunkHeader =>
      BeginChunkFits(p, p.(remain := ReadU32(b[..4]), chunkType := ReadU32(b[4..]), crc := Crc(0, b[4..]),
                           state := HandleChunk));
    case HandleChunk => PayloadFits(f, p, b);
    case CheckCrc => QuietFits(p, Error); QuietFits(p, Eof); QuietFits(p, FindChunkHeader);
    case Eof =>
  }

  // ----- the reference parser -----

  /** Take units until one does not fit what is left; the result is the state and the bytes left over. */
  function Parse<I>(f: IdatStep<I>, p: Parser<I>, buf: seq<byte>): (r: (Parser<I>, seq<byte>))
    requires Fits(p)
    ensures Fits(r.0)
    decreases |buf|, if p.state.HandleChunk? then 1 else 0
  {
    if buf == [] || Halted(p) || Waiting(f, p, buf) || |buf| < Need(p) then (p, buf)
    else
      var n := Need(p);
      UnitFits(f, p, buf[..n]);
      Parse(f, Unit(f, p, buf[..n]), buf[n..])
  }

  lemma {:induction false} ParseConcat<I>(f: IdatStep<I>, p: Parser<I>, a: seq<byte>, b: seq<byte>)
    requires Fits(p)
    ensures var r := Parse(f, p, a); Parse(f, p, a + b) == Parse(f, r.0, r.1 + b)
    decreases |a|, if p.state.HandleChunk? then 1 else 0
  {
    hide Unit;
    if a == [] {
      assert a + b == b;
    } else if Halted(p) || Waiting(f, p, a) || |a| < Need(p) {
    } else {
      var n := Need(p);
      assert (a + b)[..n] == a[..n] && (a + b)[n..] == a[n..] + b;
      UnitFits(f, p, a[..n]);
      if n == 0 { NothingTaken(f, p, a[..n]); }
      ParseConcat(f, Unit(f, p, a[..n]), a[n..], b);
    }
  }

  lemma NothingTaken<I>(f: IdatStep<I>, p: Parser<I>, b: seq<byte>)
    requires Fits(p) && !Halted(p) && |b| == Need(p) == 0
    ensures p.state.HandleChunk? && Unit(f, p, b) == p.(state := CheckCrc)
  {
  }

  /** What one call leaves over is under 13 bytes, unless the parser is done for. */
  lemma {:induction false} LeftoverIsShort<I>(f: IdatStep<I>, p: Parser<I>, buf: seq<byte>)
    requires Fits(p)
    ensures var r := Parse(f, p, buf);
            |r.1| <= |buf|
            && (r.0.state.Error? || Stalled(f, r.0, r.1) || |r.1| < Need(r.0) <= 13 || r.1 == [])
    decreases |buf|, if p.state.HandleChunk? then 1 else 0
  {
    hide Unit;
    if buf != [] && !Halted(p) && !Waiting(f, p, buf) && |buf| >= Need(p) {
      var n := Need(p);
      UnitFits(f, p, buf[..n]);
      if n == 0 { NothingTaken(f, p, buf[..n]); }
      LeftoverIsShort(f, Unit(f, p, buf[..n]), buf[n..]);
    }
  }

  /** Of 13 bytes or more a parser that has not failed takes none exactly when it stands in a gAMA chunk of which
      one to three bytes are left, or in an IDAT chunk before a byte that inflate does not take. */
  lemma StalledIff<I>(f: IdatStep<I>, p: Parser<I>, buf: seq<byte>)
    requires Fits(p) && !p.state.Error? && |buf| >= 13
    ensures |Parse(f, p, buf).1| == |buf| <==> Stalled(f, p, buf)
    ensures Stalled(f, p, buf) <==>
              p.state.HandleChunk?
              && ((p.chunkType == gAMA && 0 < p.remain < 4)
                  || (p.chunkType == IDAT && f(p.idat, buf[0]).Waits?))
  {
    hide Unit;
    if !Stalled(f, p, buf) {
      var n := Need(p);
      UnitFits(f, p, buf[..n]);
      var q := Unit(f, p, buf[..n]);
      LeftoverIsShort(f, q, buf[n..]);
      if n == 0 {
        NothingTaken(f, p, buf[..n]);
        UnitFits(f, q, buf[..4]);
        LeftoverIsShort(f, Unit(f, q, buf[..4]), buf[4..]);
      }
    }
  }

  /** A stalled parser takes nothing more, whatever comes. */
  lemma StalledTakesNothing<I>(f: IdatStep<I>, p: Parser<I>, calls: seq<seq<byte>>, carry: seq<byte>)
    requires Fits(p) && Stalled(f, p, carry)
    ensures CallByCall(f, p, carry, calls) == (p, carry + Flatten(calls))
    decreases |calls|
  {
    if calls == [] {
      assert carry + Flatten(calls) == carry;
    } else {
      assert Parse(f, p, carry + calls[0]) == (p, carry + calls[0]);
      StalledTakesNothing(f, p, calls[1..], carry + calls[0]);
      assert carry + calls[0] + Flatten(calls[1..]) == carry + Flatten(calls);
    }
  }

  /** Taking exactly one unit. */
  lemma ParseUnit<I>(f: IdatStep<I>, p: Parser<I>, b: seq<byte>)
    requires Fits(p) && !Halted(p) && !Waiting(f, p, b) && |b| == Need(p) > 0
    ensures Parse(f, p, b) == (Unit(f, p, b), [])
  {
    hide Unit;
    assert b[..Need(p)] == b && b[Need(p)..] == [];
    UnitFits(f, p, b);
  }

  /** Once in error, always in error. */
  lemma ErrorStays<I>(f: IdatStep<I>, p: Parser<I>, buf: seq<byte>, n: nat)
    requires Fits(p) && n <= |buf| && Parse(f, p, buf[..n]).0.state.Error?
    ensures Parse(f, p, buf).0.state.Error?
  {
    hide Parse, Fits;
    var r := Parse(f, p, buf[..n]);
    assert buf[..n] + buf[n..] == buf;
    ParseConcat(f, p, buf[..n], buf[n..]);
    ParseStopped(f, r.0, r.1 + buf[n..]);
  }

  // ----- payload taken many bytes at a time -----

  /** Take bytes until one waits or is broken: the state then, and how many were taken. */
  function Taking<I>(f: IdatStep<I>, i: I, s: seq<byte>): (r: (I, nat))
    ensures r.1 <= |s|
    decreases |s|
  {
    if s == [] then (i, 0)
    else match f(i, s[0])
      case Took(j) => var r := Taking(f, j, s[1..]); (r.0, r.1 + 1)
      case _ => (i, 0)
  }

  /** The fold of all the bytes, if all are taken. */
  function FoldIdat<I>(f: IdatStep<I>, i: I, s: seq<byte>): Option<I> {
    if Taking(f, i, s).1 == |s| then Some(Taking(f, i, s).0) else None
  }

  /** Some byte is not taken, without the stream being broken. */
  predicate Overrun<I>(f: IdatStep<I>, i: I, s: seq<byte>) {
    var r := Taking(f, i, s); r.1 < |s| && f(r.0, s[r.1]).Waits?
  }

  lemma ConsumeTwice<I>(p: Parser<I>, a: seq<byte>, b: seq<byte>)
    requires 0 < |b| && |a| + |b| <= p.remain
    ensures Consume(Consume(p, a), b) == Consume(p, a + b)
  {
    hide Crc;
    CrcConcat(p.crc, a, b);
  }

  /** All the IDAT bytes on offer at once, as tinfl and pngle_on_data take them. */
  lemma {:induction false} BulkIdat<I>(f: IdatStep<I>, p: Parser<I>, s: seq<byte>)
    requires Fits(p) && p.state.HandleChunk? && p.chunkType == IDAT && 0 < |s| <= p.remain
    ensures var (i, n) := Taking(f, p.idat, s);
            var q := if n == 0 then p else Consume(p.(idat := i), s[..n]);
            && Parse(f, p, s[..n]) == (q, []) && Fits(q)
            && (n < |s| && f(i, s[n]).Waits? ==> Parse(f, p, s) == (q, s[n..]))
            && (n < |s| && !f(i, s[n]).Waits? ==> Parse(f, p, s).0.state.Error?)
    decreases |s|
  {
    hide Crc, Fits, Parse;
    var b, t := s[..1], s[1..];
    assert b + t == s;
    FirstPayloadByte(f, p, b);
    match f(p.idat, s[0])
    case Broken =>
      ErrorStays(f, p, s, 1);
      assert Parse(f, p, s[..0]) == (p, []) by { ParseStopped(f, p, []); }
    case Waits =>
      ParseStopped(f, p, []);
      ParseStopped(f, p, s);
    case Took(i) =>
      var q := Consume(p.(idat := i), b);
      var n := Taking(f, i, t).1;
      assert s[..n + 1] == b + t[..n] && s[n + 1..] == t[n..];
      if t == [] {
        assert b == s;
      } else {
        BulkIdat(f, q, t);
        ParseFrom(f, p, q, b, t);
        ParseFrom(f, p, q, b, t[..n]);
        if n > 0 {
          ConsumeTwice(p.(idat := Taking(f, i, t).0), b, t[..n]);
        }
      }
  }

  lemma ParseStopped<I>(f: IdatStep<I>, p: Parser<I>, buf: seq<byte>)
    requires Fits(p) && (p.state.Error? || Stalled(f, p, buf) || buf == [])
    ensures Parse(f, p, buf) == (p, buf)
  {
  }

  lemma FirstPayloadByte<I>(f: IdatStep<I>, p: Parser<I>, b: seq<byte>)
    requires Fits(p) && p.state.HandleChunk? && p.chunkType == IDAT && |b| == 1 <= p.remain
    ensures match f(p.idat, b[0])
            case Took(i) => Parse(f, p, b) == (Consume(p.(idat := i), b), []) && Fits(Consume(p.(idat := i), b))
            case Waits => Waiting(f, p, b)
            case Broken => Parse(f, p, b).0.state.Error?
  {
    hide Crc, Fits, Parse;
    if !Waiting(f, p, b) {
      ParseUnit(f, p, b);
      UnitFits(f, p, b);
    }
  }

  /** Reading on from where a first part led. */
  lemma ParseFrom<I>(f: IdatStep<I>, p: Parser<I>, q: Parser<I>, a: seq<byte>, b: seq<byte>)
    requires Fits(p) && Fits(q) && Parse(f, p, a) == (q, [])
    ensures Parse(f, p, a + b) == Parse(f, q, b)
  {
    hide Parse, Fits;
    ParseConcat(f, p, a, b);
    var none: seq<byte> := [];
    assert none + b == b;
  }

  predicate Ancillary(chunkType: nat) {
    chunkType != IHDR && chunkType != PLTE && chunkType != IDAT && chunkType != IEND && chunkType != tRNS
    && chunkType != gAMA
  }

  lemma {:induction false} BulkSkip<I>(f: IdatStep<I>, p: Parser<I>, s: seq<byte>)
    requires Fits(p) && p.state.HandleChunk? && Ancillary(p.chunkType) && 0 < |s| <= p.remain
    ensures Parse(f, p, s) == (Consume(p, s), [])
    decreases |s|
  {
    hide Crc, Fits, Parse;
    var b, t := s[..1], s[1..];
    assert b + t == s;
    ParseUnit(f, p, b);
    UnitFits(f, p, b);
    if t == [] {
      assert b == s;
    } else {
      BulkSkip(f, Consume(p, b), t);
      ParseFrom(f, p, Consume(p, b), b, t);
      ConsumeTwice(p, b, t);
    }
  }

  lemma {:induction false} BulkEof<I>(f: IdatStep<I>, p: Parser<I>, s: seq<byte>)
    requires Fits(p) && p.state.Eof?
    ensures Parse(f, p, s) == (p, [])
    decreases |s|
  {
    if s != [] {
      BulkEof(f, p, s[1..]);
    }
  }

  // ----- any division into calls -----

  /** Feed the calls in turn, each with the bytes the one before left over in front. */
  function CallByCall<I>(f: IdatStep<I>, p: Parser<I>, carry: seq<byte>,
                         calls: seq<seq<byte>>): (r: (Parser<I>, seq<byte>))
    requires Fits(p)
    ensures Fits(r.0)
    decreases |calls|
  {
    if calls == [] then (p, carry)
    else
      var r := Parse(f, p, carry + calls[0]);
      CallByCall(f, r.0, r.1, calls[1..])
  }

  /** The state reached, errors included, does not depend on how the stream was divided. */
  lemma {:induction false} SplitIndependent<I>(f: IdatStep<I>, p: Parser<I>, carry: seq<byte>, calls: seq<seq<byte>>)
    requires Fits(p) && Parse(f, p, carry) == (p, carry)
    ensures CallByCall(f, p, carry, calls) == Parse(f, p, carry + Flatten(calls))
    decreases |calls|
  {
    hide Parse, Fits;
    if calls == [] {
      assert carry + Flatten(calls) == carry;
    } else {
      var r := Parse(f, p, carry + calls[0]);
      ParseSettles(f, p, carry + calls[0]);
      SplitIndependent(f, r.0, r.1, calls[1..]);
      ParseConcat(f, p, carry + calls[0], Flatten(calls[1..]));
      assert carry + calls[0] + Flatten(calls[1..]) == carry + Flatten(calls);
    }
  }

  /** What was left over cannot be taken without more input. */
  lemma {:induction false} ParseSettles<I>(f: IdatStep<I>, p: Parser<I>, buf: seq<byte>)
    requires Fits(p)
    ensures var r := Parse(f, p, buf); Parse(f, r.0, r.1) == r
  {
    ParseConcat(f, p, buf, []);
    assert buf + [] == buf && Parse(f, p, buf).1 + [] == Parse(f, p, buf).1;
  }
}
