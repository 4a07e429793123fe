/**
 * Whole files: what one chunk means, that a file of good chunks is read as
 * their meanings in order.
 */
module PngFile {
  import opened Basics
  import opened PngFormat
  import opened PngColors
  import opened PngChunks

  datatype Chunk = Chunk(chunkType: nat, data: seq<byte>)

  predicate Encodable(c: Chunk) { c.chunkType < U32 && |c.data| < U32 }

  function Check(c: Chunk): nat
    requires Encodable(c)
  {
    Crc(0, WriteU32(c.chunkType) + c.data) as nat
  }

  /** Length, type and data; the check value follows (RFC 2083, section 3.2). */
  function Front(c: Chunk): seq<byte>
    requires Encodable(c)
  {
    WriteU32(|c.data|) + WriteU32(c.chunkType) + c.data
  }

  function Encode(c: Chunk): seq<byte>
    requires Encodable(c)
  {
    Front(c) + WriteU32(Check(c))
  }

  /** The parser just after the header of c. */
  function Opened<I>(p: Parser<I>, c: Chunk): Parser<I>
    requires Encodable(c)
  {
    BeginChunk(p.(remain := |c.data|, chunkType := c.chunkType, crc := Crc(0, WriteU32(c.chunkType)),
                  state := HandleChunk))
  }

  /** What c's payload does to the fields that outlive the chunk. */
  function Meaning<I>(f: IdatStep<I>, p: Parser<I>, c: Chunk): Parser<I> {
    if c.chunkType == IHDR && |c.data| == 13 then p.(hdr := ReadHeader(c.data), channels := Channels(c.data[9]))
    else if c.chunkType == IDAT && FoldIdat(f, p.idat, c.data).Some? then
      p.(idatSeen := true, idat := FoldIdat(f, p.idat, c.data).value)
    else if c.chunkType == PLTE then p.(palette := Some(c.data), nPalettes := |c.data| / 3)
    else if c.chunkType == tRNS then p.(trans := Some(c.data), nTrans := |c.data| / TransUnit(p.hdr.colorType))
    else if c.chunkType == gAMA && |c.data| >= 4 then p.(gamma := Some(ReadU32(c.data[|c.data| - 4..])))
    else p
  }

  /** The chunk may come next, and its payload is a whole number of acceptable units. */
  predicate Allowed<I>(f: IdatStep<I>, p: Parser<I>, c: Chunk) {
    && Encodable(c)
    && !Opened(p, c).state.Error?
    && (c.chunkType == IHDR ==> |c.data| == 13 && HeaderOk(ReadHeader(c.data)))
    && (c.chunkType == IDAT ==> FoldIdat(f, p.idat, c.data).Some?)
    && (c.chunkType == gAMA ==> |c.data| % 4 == 0)
  }

  /** Waiting for the check value, all payload read. */
  function Closed<I>(f: IdatStep<I>, p: Parser<I>, c: Chunk): Parser<I>
    requires Encodable(c)
  {
    Meaning(f, p, c).(chunkType := c.chunkType, remain := 0, crc := Crc(0, WriteU32(c.chunkType) + c.data),
                      state := CheckCrc)
  }

  function Apply<I>(f: IdatStep<I>, p: Parser<I>, c: Chunk): Parser<I>
    requires Encodable(c)
  {
    Closed(f, p, c).(state := if c.chunkType == IEND then Eof else FindChunkHeader)
  }

  // ----- payload loops -----

  lemma TwoReads<I>(f: IdatStep<I>, p: Parser<I>, q: Parser<I>, r: Parser<I>, a: seq<byte>, b: seq<byte>)
    requires Fits(p) && Fits(q) && Parse(f, p, a) == (q, []) && Parse(f, q, b) == (r, [])
    ensures Parse(f, p, a + b) == (r, [])
  {
    hide Parse, Fits;
    ParseFrom(f, p, q, a, b);
  }

  lemma {:induction false} ReadPalette<I>(f: IdatStep<I>, p: Parser<I>, s: seq<byte>)
    requires Fits(p) && p.state.HandleChunk? && p.chunkType == PLTE && |s| == p.remain > 0
    ensures p.palette.Some? && 3 * p.nPalettes <= |p.palette.value|
    ensures Parse(f, p, s) == (Consume(p.(palette := Some(p.palette.value[..3 * p.nPalettes] + s),
                                          nPalettes := p.nPalettes + |s| / 3), s), [])
    decreases |s|
  {
    hide Crc, Parse;
    var a, b := s[..3], s[3..];
    var q := Payload(f, p, a);
    ParseUnit(f, p, a);
    UnitFits(f, p, a);
    assert a + b == s;
    if b != [] {
      ReadPalette(f, q, b);
      TableGrows(p.palette.value, 3 * p.nPalettes, a, b);
      TwoReads(f, p, q, Parse(f, q, b).0, a, b);
      ConsumeTwice(p.(palette := Some(p.palette.value[..3 * p.nPalettes] + s), nPalettes := p.nPalettes + |s| / 3),
                   a, b);
    } else {
      TableGrows(p.palette.value, 3 * p.nPalettes, a, b);
      assert a == s;
    }
  }

  lemma TableGrows(t: seq<byte>, at: nat, a: seq<byte>, b: seq<byte>)
    requires at + |a| + |b| == |t|
    ensures Overwrite(t, at, a)[..at + |a|] + b == t[..at] + (a + b)
    ensures b == [] ==> Overwrite(t, at, a) == t[..at] + a
  {
  }

  /** For colour types 0 and 2 the table is one unit; for 3 it is one byte per unit. */
  lemma {:induction false} ReadTrans<I>(f: IdatStep<I>, p: Parser<I>, s: seq<byte>)
    requires Fits(p) && p.state.HandleChunk? && p.chunkType == tRNS && |s| == p.remain > 0
    requires |s| % TransUnit(p.hdr.colorType) == 0 && (p.hdr.colorType != 3 ==> p.nTrans == 0)
    ensures p.trans.Some? && p.nTrans <= |p.trans.value|
    ensures Parse(f, p, s) == (Consume(p.(trans := Some(p.trans.value[..p.nTrans] + s),
                                          nTrans := p.nTrans + |s| / TransUnit(p.hdr.colorType)), s), [])
    decreases |s|
  {
    hide Crc, Parse;
    var u := TransUnit(p.hdr.colorType);
    var a, b := s[..u], s[u..];
    var q := Payload(f, p, a);
    ParseUnit(f, p, a);
    UnitFits(f, p, a);
    assert a + b == s;
    TableGrows(p.trans.value, p.nTrans, a, b);
    if b != [] {
      ReadTrans(f, q, b);
      TwoReads(f, p, q, Parse(f, q, b).0, a, b);
      ConsumeTwice(p.(trans := Some(p.trans.value[..p.nTrans] + s), nTrans := p.nTrans + |s| / u), a, b);
    } else {
      assert a == s;
    }
  }

  lemma {:induction false} ReadGamma<I>(f: IdatStep<I>, p: Parser<I>, s: seq<byte>)
    requires Fits(p) && p.state.HandleChunk? && p.chunkType == gAMA && |s| == p.remain > 0 && |s| % 4 == 0
    ensures Parse(f, p, s) == (Consume(p.(gamma := Some(ReadU32(s[|s| - 4..]))), s), [])
    decreases |s|
  {
    hide Crc, Parse, ReadU32;
    var a, b := s[..4], s[4..];
    var q := Payload(f, p, a);
    ParseUnit(f, p, a);
    UnitFits(f, p, a);
    assert a + b == s;
    if b != [] {
      ReadGamma(f, q, b);
      assert b[|b| - 4..] == s[|s| - 4..];
      TwoReads(f, p, q, Parse(f, q, b).0, a, b);
      ConsumeTwice(p.(gamma := Some(ReadU32(s[|s| - 4..]))), a, b);
    } else {
      assert a == s && s[|s| - 4..] == s;
    }
  }

  // ----- one chunk -----

  lemma OpenedFits<I>(p: Parser<I>, c: Chunk)
    requires Fits(p) && p.state.FindChunkHeader? && Encodable(c)
    ensures Fits(Opened(p, c))
  {
    hide Fits, Crc, BeginChunk;
    BeginChunkFits(p, p.(remain := |c.data|, chunkType := c.chunkType, crc := Crc(0, WriteU32(c.chunkType)),
                         state := HandleChunk));
  }

  lemma ReadOpening<I>(f: IdatStep<I>, p: Parser<I>, c: Chunk)
    requires Fits(p) && p.state.FindChunkHeader? && Encodable(c)
    ensures Parse(f, p, WriteU32(|c.data|) + WriteU32(c.chunkType)) == (Opened(p, c), [])
  {
    hide Fits, Crc, BeginChunk, Parse, ReadU32, WriteU32;
    var b := WriteU32(|c.data|) + WriteU32(c.chunkType);
    assert b[..4] == WriteU32(|c.data|) && b[4..] == WriteU32(c.chunkType);
    U32RoundTrip(|c.data|);
    U32RoundTrip(c.chunkType);
    ParseUnit(f, p, b);
  }

  /** What opening an acceptable chunk does to q, its registers already set. */
  function OpenedAs<I>(q: Parser<I>): Parser<I> {
    if q.chunkType == IDAT then q.(idatSeen := true)
    else if q.chunkType == PLTE then q.(palette := Some(Zeros(q.remain)), nPalettes := 0)
    else if q.chunkType == tRNS then q.(trans := Some(Zeros(q.remain)), nTrans := 0)
    else q
  }

  lemma OpenedIs<I>(f: IdatStep<I>, p: Parser<I>, c: Chunk)
    requires Allowed(f, p, c)
    ensures Opened(p, c) == OpenedAs(p.(remain := |c.data|, chunkType := c.chunkType,
                                        crc := Crc(0, WriteU32(c.chunkType)), state := HandleChunk))
    ensures c.chunkType == IEND ==> c.data == []
    ensures c.chunkType == tRNS ==> |c.data| % TransUnit(p.hdr.colorType) == 0
  {
    hide Crc, FoldIdat, ReadU32, WriteU32, PaletteLimit, HeaderOk;
  }

  lemma ReadTables<I>(f: IdatStep<I>, p: Parser<I>, c: Chunk)
    requires Encodable(c) && Allowed(f, p, c) && c.data != [] && (c.chunkType == PLTE || c.chunkType == tRNS)
      && Fits(Opened(p, c))
    ensures Parse(f, Opened(p, c), c.data) == (Closed(f, p, c), [])
  {
    hide Fits, Opened, BeginChunk, Parse, Crc, Allowed;
    var q := Opened(p, c);
    OpenedIs(f, p, c);
    CrcConcat(0, WriteU32(c.chunkType), c.data);
    if c.chunkType == PLTE {
      ReadPalette(f, q, c.data);
      assert q.palette.value[..0] + c.data == c.data;
    } else {
      ReadTrans(f, q, c.data);
      assert q.trans.value[..0] + c.data == c.data;
    }
  }

  lemma ReadHeaderOrGamma<I>(f: IdatStep<I>, p: Parser<I>, c: Chunk)
    requires Allowed(f, p, c) && c.data != [] && (c.chunkType == IHDR || c.chunkType == gAMA) && Fits(Opened(p, c))
    ensures Parse(f, Opened(p, c), c.data) == (Closed(f, p, c), [])
  {
    hide Fits, Opened, BeginChunk, Parse, Crc, ReadU32, WriteU32, FoldIdat;
    var q := Opened(p, c);
    OpenedIs(f, p, c);
    CrcConcat(0, WriteU32(c.chunkType), c.data);
    if c.chunkType == IHDR {
      ParseUnit(f, q, c.data);
    } else {
      ReadGamma(f, q, c.data);
    }
  }

  lemma ReadBulk<I>(f: IdatStep<I>, p: Parser<I>, c: Chunk)
    requires Allowed(f, p, c) && c.data != [] && (c.chunkType == IDAT || Ancillary(c.chunkType)) && Fits(Opened(p, c))
    ensures Parse(f, Opened(p, c), c.data) == (Closed(f, p, c), [])
  {
    hide Fits, Opened, BeginChunk, Parse, Crc, ReadU32, WriteU32, Taking;
    var q := Opened(p, c);
    OpenedIs(f, p, c);
    CrcConcat(0, WriteU32(c.chunkType), c.data);
    if c.chunkType == IDAT {
      assert c.data[..|c.data|] == c.data;
      BulkIdat(f, q, c.data);
    } else {
      BulkSkip(f, q, c.data);
    }
  }

  /** A non-empty payload, whatever the chunk. */
  lemma ReadPayload<I>(f: IdatStep<I>, p: Parser<I>, c: Chunk)
    requires Fits(p) && p.state.FindChunkHeader? && Allowed(f, p, c) && c.data != []
    ensures Fits(Opened(p, c)) && Parse(f, Opened(p, c), c.data) == (Closed(f, p, c), [])
  {
    hide Fits, Opened, Closed, Parse;
    OpenedFits(p, c);
    OpenedIs(f, p, c);
    if c.chunkType == PLTE || c.chunkType == tRNS {
      ReadTables(f, p, c);
    } else if c.chunkType == IHDR || c.chunkType == gAMA {
      ReadHeaderOrGamma(f, p, c);
    } else {
      ReadBulk(f, p, c);
    }
  }

  /** Whatever four bytes follow, the chunk stands or falls with them. */
  lemma CrcDecides<I>(f: IdatStep<I>, p: Parser<I>, c: Chunk, w: seq<byte>, rest: seq<byte>)
    requires Encodable(c) && Fits(p) && p.state.FindChunkHeader? && Allowed(f, p, c) && |w| == 4
    ensures w == WriteU32(Check(c)) ==>
      Fits(Apply(f, p, c)) && Parse(f, p, Front(c) + w + rest) == Parse(f, Apply(f, p, c), rest)
    ensures w != WriteU32(Check(c)) ==> Parse(f, p, Front(c) + w + rest).0.state.Error?
  {
    hide Fits, Parse, Opened, Crc, WriteU32, ReadU32, Meaning, Allowed;
    var head := WriteU32(|c.data|) + WriteU32(c.chunkType);
    var q := Opened(p, c);
    var t := Closed(f, p, c);
    ReadOpening(f, p, c);
    OpenedFits(p, c);
    if c.data != [] {
      ReadPayload(f, p, c);
      TwoReads(f, p, q, t, head, c.data);
      CheckValue(f, t, w);
      ParseFrom(f, p, t, Front(c), w + rest);
    } else {
      EmptyPayload(f, p, c, w + rest);
      ParseFrom(f, p, q, head, w + rest);
      assert head + c.data == head;
      CheckValue(f, t, w);
    }
    assert Front(c) + w + rest == Front(c) + (w + rest);
    U32RoundTrip(Check(c));
    U32Injective(w);
    if ReadU32(w) == Check(c) {
      ParseFrom(f, t, Apply(f, p, c), w, rest);
    } else {
      assert (w + rest)[..4] == w;
      ErrorStays(f, t, w + rest, 4);
    }
  }

  /** The four bytes after a payload. */
  lemma CheckValue<I>(f: IdatStep<I>, t: Parser<I>, w: seq<byte>)
    requires Fits(t) && t.state.CheckCrc? && |w| == 4
    ensures var q := if ReadU32(w) != t.crc as nat then Fail(t)
                     else t.(state := if t.chunkType == IEND then Eof else FindChunkHeader);
            Parse(f, t, w) == (q, []) && Fits(q)
  {
    hide Fits, Parse, Crc;
    ParseUnit(f, t, w);
  }

  /** An empty payload is over as soon as anything follows. */
  lemma EmptyPayload<I>(f: IdatStep<I>, p: Parser<I>, c: Chunk, rest: seq<byte>)
    requires Encodable(c) && Fits(Opened(p, c)) && Allowed(f, p, c) && c.data == [] && rest != []
    ensures Fits(Closed(f, p, c)) && Parse(f, Opened(p, c), rest) == Parse(f, Closed(f, p, c), rest)
  {
    hide Fits, Crc, Unit, WriteU32, ReadU32;
    var q := Opened(p, c);
    assert rest[..0] == [] && rest[0..] == rest && WriteU32(c.chunkType) + c.data == WriteU32(c.chunkType);
    NothingTaken(f, q, []);
    UnitFits(f, q, []);
  }

  // ----- whole files -----

  predicate AllowedAll<I>(f: IdatStep<I>, p: Parser<I>, cs: seq<Chunk>)
    decreases |cs|
  {
    cs == [] || (p.state.FindChunkHeader? && Allowed(f, p, cs[0]) && AllowedAll(f, Apply(f, p, cs[0]), cs[1..]))
  }

  function ApplyAll<I>(f: IdatStep<I>, p: Parser<I>, cs: seq<Chunk>): Parser<I>
    requires AllowedAll(f, p, cs)
    decreases |cs|
  {
    if cs == [] then p else ApplyAll(f, Apply(f, p, cs[0]), cs[1..])
  }

  function EncodeAll(cs: seq<Chunk>): seq<byte>
    requires forall c | c in cs :: Encodable(c)
  {
    if cs == [] then [] else Encode(cs[0]) + EncodeAll(cs[1..])
  }

  lemma {:induction false} ChunksRead<I>(f: IdatStep<I>, p: Parser<I>, cs: seq<Chunk>)
    requires Fits(p) && AllowedAll(f, p, cs) && forall c | c in cs :: Encodable(c)
    ensures Parse(f, p, EncodeAll(cs)) == (ApplyAll(f, p, cs), [])
    decreases |cs|
  {
    hide Fits, Parse, Allowed, Apply, Encode, Front, Crc;
    if cs == [] {
      assert Parse(f, p, []) == (p, []) by { ParseNone(f, p); }
    } else {
      ChunkRead(f, p, cs[0], EncodeAll(cs[1..]));
      ChunksRead(f, Apply(f, p, cs[0]), cs[1..]);
    }
  }

  lemma ParseNone<I>(f: IdatStep<I>, p: Parser<I>)
    requires Fits(p)
    ensures Parse(f, p, []) == (p, [])
  {
  }

  lemma ChunkRead<I>(f: IdatStep<I>, p: Parser<I>, c: Chunk, rest: seq<byte>)
    requires Encodable(c) && Fits(p) && p.state.FindChunkHeader? && Allowed(f, p, c)
    ensures Fits(Apply(f, p, c)) && Parse(f, p, Encode(c) + rest) == Parse(f, Apply(f, p, c), rest)
  {
    hide Fits, Parse, Apply, Crc, WriteU32, Front;
    CrcDecides(f, p, c, WriteU32(Check(c)), rest);
  }

  function AfterSignature<I>(idat: I): Parser<I> { Start(idat).(state := FindChunkHeader) }

  /** A file of acceptable chunks is read as their meanings, in order. */
  lemma FileRead<I>(f: IdatStep<I>, idat: I, cs: seq<Chunk>)
    requires AllowedAll(f, AfterSignature(idat), cs) && forall c | c in cs :: Encodable(c)
    ensures Fits(Start(idat))
    ensures Parse(f, Start(idat), Signature + EncodeAll(cs)) == (ApplyAll(f, AfterSignature(idat), cs), [])
  {
    hide Parse, AllowedAll, ApplyAll, EncodeAll;
    ParseUnit(f, Start(idat), Signature);
    ParseFrom(f, Start(idat), AfterSignature(idat), Signature, EncodeAll(cs));
    ChunksRead(f, AfterSignature(idat), cs);
  }

  // ----- streams taken piece by piece -----

  lemma {:induction false} TakingConcat<I>(f: IdatStep<I>, i: I, a: seq<byte>, b: seq<byte>)
    ensures var r := Taking(f, i, a);
            Taking(f, i, a + b)
            == if r.1 == |a| then (Taking(f, r.0, b).0, |a| + Taking(f, r.0, b).1) else r
    ensures Taking(f, i, a).1 < |a| ==> a[Taking(f, i, a).1] == (a + b)[Taking(f, i, a).1]
    decreases |a|
  {
    if a == [] {
      assert a + b == b;
    } else {
      assert (a + b)[0] == a[0] && (a + b)[1..] == a[1..] + b;
      if f(i, a[0]).Took? { TakingConcat(f, f(i, a[0]).i, a[1..], b); }
    }
  }

  /** Whether bytes are left over is settled by the first piece of which some are. */
  lemma OverrunConcat<I>(f: IdatStep<I>, i: I, a: seq<byte>, b: seq<byte>)
    ensures match FoldIdat(f, i, a)
            case Some(j) => Overrun(f, i, a + b) == Overrun(f, j, b)
            case None => Overrun(f, i, a + b) == Overrun(f, i, a)
  {
    hide Taking;
    TakingConcat(f, i, a, b);
    if FoldIdat(f, i, a).Some? {
      var n := Taking(f, FoldIdat(f, i, a).value, b).1;
      if n < |b| { assert (a + b)[|a| + n] == b[n]; }
    }
  }
}
