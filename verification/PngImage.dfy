/**
 * The file of an image: header, tables, a payload cut anywhere, unknown chunks
 * between; and what reading it leaves.
 */
module PngImage {
  import opened Basics
  import opened PngFormat
  import opened PngChunks
  import opened PngFile
  import opened PngStall

  // ----- chunks the decoder does not know -----

  /** All but the registers a chunk leaves behind. */
  function Core<I>(p: Parser<I>): Parser<I> { p.(chunkType := 0, remain := 0, crc := 0) }

  function Relevant(cs: seq<Chunk>): seq<Chunk> {
    if cs == [] then []
    else if Ancillary(cs[0].chunkType) then Relevant(cs[1..])
    else [cs[0]] + Relevant(cs[1..])
  }

  lemma SameCoreSameChunk<I>(f: IdatStep<I>, p: Parser<I>, q: Parser<I>, c: Chunk)
    requires Core(p) == Core(q) && p.state.FindChunkHeader? && Encodable(c)
    ensures Allowed(f, p, c) == Allowed(f, q, c) && Stalls(f, p, c) == Stalls(f, q, c)
    ensures Core(Apply(f, p, c)) == Core(Apply(f, q, c)) && Opened(p, c) == Opened(q, c)
  {
    hide FoldIdat, Overrun, Crc, WriteU32, ReadU32, HeaderOk, PaletteLimit;
  }

  lemma AncillaryChunk<I>(f: IdatStep<I>, p: Parser<I>, c: Chunk)
    requires Encodable(c) && Ancillary(c.chunkType) && p.state.FindChunkHeader?
    ensures Allowed(f, p, c) && !Stalls(f, p, c) && Core(Apply(f, p, c)) == Core(p)
  {
    hide FoldIdat, Crc, WriteU32, ReadU32;
  }

  /** Two parsers that differ in those registers only read a chunk's payload alike. */
  lemma SameFront<I>(f: IdatStep<I>, p: Parser<I>, q: Parser<I>, c: Chunk)
    requires Fits(p) && Fits(q) && Core(p) == Core(q) && p.state.FindChunkHeader? && Encodable(c)
    ensures Parse(f, p, Front(c)) == Parse(f, q, Front(c))
  {
    hide Fits, Parse, Opened, WriteU32;
    var head := WriteU32(|c.data|) + WriteU32(c.chunkType);
    SameCoreSameChunk(f, p, q, c);
    ReadOpening(f, p, c);
    ReadOpening(f, q, c);
    OpenedFits(p, c);
    ParseFrom(f, p, Opened(p, c), head, c.data);
    ParseFrom(f, q, Opened(p, c), head, c.data);
  }

  /** A chunk that stalls, with anything behind it. */
  lemma StallsWithin<I>(f: IdatStep<I>, p: Parser<I>, c: Chunk, rest: seq<byte>)
    requires Fits(p) && p.state.FindChunkHeader? && Encodable(c) && Stalls(f, p, c)
    ensures var r := Parse(f, p, Encode(c) + rest);
            r.0 == Parse(f, p, Front(c)).0 && Stalled(f, r.0, r.1)
  {
    hide Fits, Parse, Stalls, Stalled, Front;
    ChunkStallsIff(f, p, c);
    StallStays(f, p, Front(c), WriteU32(Check(c)) + rest);
    assert Encode(c) + rest == Front(c) + (WriteU32(Check(c)) + rest);
  }

  /** What comes of two files: the same, but for registers and what is left over. */
  ghost predicate Alike<I>(f: IdatStep<I>, r: (Parser<I>, seq<byte>), s: (Parser<I>, seq<byte>)) {
    Core(r.0) == Core(s.0) && (Stalled(f, r.0, r.1) <==> Stalled(f, s.0, s.1))
  }

  /** Unknown chunks may stand anywhere before the end, and change nothing. */
  lemma {:induction false} AncillaryIgnored<I>(f: IdatStep<I>, p: Parser<I>, q: Parser<I>, cs: seq<Chunk>)
    requires Fits(p) && Fits(q) && Core(p) == Core(q) && p.state.FindChunkHeader? && Encodables(cs)
    requires cs != [] ==> !Ancillary(cs[|cs| - 1].chunkType)
    requires SoundAll(f, q, Relevant(cs))
    ensures SoundAll(f, p, cs) && Encodables(Relevant(cs))
    ensures Alike(f, Parse(f, p, EncodeAll(cs)), Parse(f, q, EncodeAll(Relevant(cs))))
    decreases |cs|
  {
    hide Fits, Parse, Allowed, Stalls, Stalled, Apply, Ancillary, Encodable, Core, Encode;
    RelevantEncodable(cs);
    if cs == [] {
      ParseStopped(f, p, []);
      ParseStopped(f, q, []);
      NothingStalls(f, p, q);
    } else {
      var c, rest := cs[0], cs[1..];
      if Ancillary(c.chunkType) {
        AncillaryChunk(f, p, c);
        ChunkRead(f, p, c, EncodeAll(rest));
        SameCoreSameState(Apply(f, p, c), p);
        AncillaryIgnored(f, Apply(f, p, c), q, rest);
      } else {
        assert Relevant(cs) == [c] + Relevant(rest) && Relevant(cs)[1..] == Relevant(rest);
        SameCoreSameState(p, q);
        SameCoreSameChunk(f, p, q, c);
        if Stalls(f, q, c) {
          SameFront(f, p, q, c);
          StallsWithin(f, p, c, EncodeAll(rest));
          StallsWithin(f, q, c, EncodeAll(Relevant(rest)));
        } else {
          ChunkRead(f, p, c, EncodeAll(rest));
          ChunkRead(f, q, c, EncodeAll(Relevant(rest)));
          SameCoreSameState(Apply(f, p, c), Apply(f, q, c));
          if rest == [] {
            ParseStopped(f, Apply(f, p, c), []);
            ParseStopped(f, Apply(f, q, c), []);
            AppliedNotStalled(f, p, q, c);
          } else {
            LastIsRelevant(rest);
            AncillaryIgnored(f, Apply(f, p, c), Apply(f, q, c), rest);
          }
        }
      }
    }
  }

  lemma SameCoreSameState<I>(p: Parser<I>, q: Parser<I>)
    requires Core(p) == Core(q)
    ensures p.state == q.state
  {
  }

  lemma NothingStalls<I>(f: IdatStep<I>, p: Parser<I>, q: Parser<I>)
    requires p.state.FindChunkHeader? && Core(p) == Core(q)
    ensures !Stalled(f, p, []) && !Stalled(f, q, [])
  {
  }

  lemma AppliedNotStalled<I>(f: IdatStep<I>, p: Parser<I>, q: Parser<I>, c: Chunk)
    requires Encodable(c)
    ensures !Stalled(f, Apply(f, p, c), []) && !Stalled(f, Apply(f, q, c), [])
  {
  }

  lemma {:induction false} RelevantEncodable(cs: seq<Chunk>)
    requires Encodables(cs)
    ensures Encodables(Relevant(cs))
    decreases |cs|
  {
    if cs != [] { RelevantEncodable(cs[1..]); }
  }

  lemma {:induction false} LastIsRelevant(cs: seq<Chunk>)
    requires cs != [] && !Ancillary(cs[|cs| - 1].chunkType)
    ensures Relevant(cs) != []
    decreases |cs|
  {
    hide Ancillary;
    if Ancillary(cs[0].chunkType) { LastIsRelevant(cs[1..]); }
  }

  // ----- the payload -----

  function IdatChunks(pieces: seq<seq<byte>>): seq<Chunk> {
    if pieces == [] then [] else [Chunk(IDAT, pieces[0])] + IdatChunks(pieces[1..])
  }

  predicate Pieces(pieces: seq<seq<byte>>) { forall k | 0 <= k < |pieces| :: 0 < |pieces[k]| < U32 }

  const TheEnd := Chunk(IEND, [])

  function Tail(pieces: seq<seq<byte>>): seq<Chunk> { IdatChunks(pieces) + [TheEnd] }

  /** The stream is not broken: its bytes are taken, or all up to one that waits. */
  predicate Fair<I>(f: IdatStep<I>, i: I, s: seq<byte>) { FoldIdat(f, i, s).Some? || Overrun(f, i, s) }

  /** After the payload s: its bytes taken, and the file at its end unless some are left over. */
  ghost predicate PayloadTaken<I>(f: IdatStep<I>, p: Parser<I>, s: seq<byte>, r: (Parser<I>, seq<byte>)) {
    && Lasting(r.0, p.idat) == Lasting(p, p.idat) && r.0.idat == Taking(f, p.idat, s).0
    && if Overrun(f, p.idat, s) then Stalled(f, r.0, r.1) else r.0.state.Eof? && r.1 == []
  }

  lemma EncodeOne(c: Chunk, cs: seq<Chunk>)
    requires Encodable(c) && Encodables(cs)
    ensures Encodables([c] + cs) && EncodeAll([c] + cs) == Encode(c) + EncodeAll(cs)
  {
    assert ([c] + cs)[1..] == cs;
  }

  lemma SoundOne<I>(f: IdatStep<I>, p: Parser<I>, c: Chunk, cs: seq<Chunk>)
    requires p.state.FindChunkHeader? && Sound(f, p, c) && (Stalls(f, p, c) || SoundAll(f, Apply(f, p, c), cs))
    ensures SoundAll(f, p, [c] + cs)
  {
    assert ([c] + cs)[1..] == cs;
  }

  /** A first piece that is taken, or that stalls. */
  lemma PayloadJoins<I>(f: IdatStep<I>, p: Parser<I>, q: Parser<I>, a: seq<byte>, b: seq<byte>,
                        r: (Parser<I>, seq<byte>))
    ensures (FoldIdat(f, p.idat, a) == Some(q.idat) && Lasting(q, p.idat) == Lasting(p, p.idat)
             && PayloadTaken(f, q, b, r)) ==> PayloadTaken(f, p, a + b, r)
    ensures (Overrun(f, p.idat, a) && Lasting(r.0, p.idat) == Lasting(p, p.idat)
             && r.0.idat == Taking(f, p.idat, a).0 && Stalled(f, r.0, r.1)) ==> PayloadTaken(f, p, a + b, r)
  {
    hide Taking, Stalled;
    TakingConcat(f, p.idat, a, b);
    OverrunConcat(f, p.idat, a, b);
  }

  /** The IDAT payload is one stream, wherever its chunks begin and end; then the file ends. */
  lemma {:induction false} PayloadRead<I>(f: IdatStep<I>, p: Parser<I>, pieces: seq<seq<byte>>)
    requires Fits(p) && p.state.FindChunkHeader? && Pieces(pieces) && Fair(f, p.idat, Flatten(pieces))
    requires p.channels != 0 && (p.hdr.colorType == 3 ==> p.palette.Some?) && (pieces == [] ==> p.idatSeen)
    ensures var cs := Tail(pieces);
            Encodables(cs) && SoundAll(f, p, cs)
            && PayloadTaken(f, p, Flatten(pieces), Parse(f, p, EncodeAll(cs)))
    decreases |pieces|
  {
    hide Fits, Parse, Taking, Encode, EncodeAll, Apply, Allowed, Overrun, Stalls, Stalled, SoundAll, PayloadTaken;
    hide FoldIdat, LongIdat;
    if pieces == [] {
      EndRead(f, p);
      assert Tail(pieces) == [TheEnd];
    } else {
      var c, rest := Chunk(IDAT, pieces[0]), Tail(pieces[1..]);
      var q := Apply(f, p, c);
      assert Tail(pieces) == [c] + rest;
      IdatsEncodable(pieces[1..]);
      IdatPiece(f, p, c);
      EncodeOne(c, rest);
      PayloadJoins(f, p, q, pieces[0], Flatten(pieces[1..]), Parse(f, p, EncodeAll(Tail(pieces))));
      OverrunConcat(f, p.idat, pieces[0], Flatten(pieces[1..]));
      FairConcat(f, p.idat, pieces[0], Flatten(pieces[1..]));
      if Overrun(f, p.idat, pieces[0]) {
        PieceStalls(f, p, c, EncodeAll(rest));
      } else {
        ChunkRead(f, p, c, EncodeAll(rest));
        PayloadRead(f, q, pieces[1..]);
      }
      SoundOne(f, p, c, rest);
    }
  }

  lemma FairConcat<I>(f: IdatStep<I>, i: I, a: seq<byte>, b: seq<byte>)
    requires Fair(f, i, a + b)
    ensures Overrun(f, i, a) || (FoldIdat(f, i, a).Some? && Fair(f, FoldIdat(f, i, a).value, b))
  {
    hide Taking;
    TakingConcat(f, i, a, b);
    OverrunConcat(f, i, a, b);
  }

  lemma EndRead<I>(f: IdatStep<I>, p: Parser<I>)
    requires Fits(p) && p.state.FindChunkHeader? && p.idatSeen
    ensures SoundAll(f, p, [TheEnd]) && PayloadTaken(f, p, [], Parse(f, p, EncodeAll([TheEnd])))
  {
    hide Fits, Parse, Crc, WriteU32, Encode;
    EncodeOne(TheEnd, []);
    assert Allowed(f, p, TheEnd) && !Stalls(f, p, TheEnd) && [TheEnd][1..] == [];
    ChunkRead(f, p, TheEnd, []);
    ParseStopped(f, Apply(f, p, TheEnd), []);
  }

  /** An IDAT chunk that may come next: acceptable if it is taken, else it stalls. */
  lemma IdatPiece<I>(f: IdatStep<I>, p: Parser<I>, c: Chunk)
    requires p.state.FindChunkHeader? && c.chunkType == IDAT && 0 < |c.data| < U32
    requires p.channels != 0 && (p.hdr.colorType == 3 ==> p.palette.Some?)
    ensures Encodable(c) && Stalls(f, p, c) == Overrun(f, p.idat, c.data)
    ensures FoldIdat(f, p.idat, c.data).Some? ==>
      var q := Apply(f, p, c);
      Allowed(f, p, c) && Lasting(q, p.idat) == Lasting(p, p.idat) && q.state.FindChunkHeader? && q.idatSeen
      && q.idat == FoldIdat(f, p.idat, c.data).value
    ensures Overrun(f, p.idat, c.data) ==> FoldIdat(f, p.idat, c.data).None? && LongIdat(f, p, c)
  {
    hide Taking, Crc, WriteU32, ReadU32;
  }

  lemma PieceStalls<I>(f: IdatStep<I>, p: Parser<I>, c: Chunk, rest: seq<byte>)
    requires Fits(p) && p.state.FindChunkHeader? && Encodable(c) && LongIdat(f, p, c)
    ensures var r := Parse(f, p, Encode(c) + rest);
            Lasting(r.0, p.idat) == Lasting(p, p.idat) && r.0.idat == Taking(f, p.idat, c.data).0
            && Stalled(f, r.0, r.1)
  {
    hide Fits, Parse, Taking, Overrun, Opened, WriteU32, Stalled;
    var head := WriteU32(|c.data|) + WriteU32(c.chunkType);
    StallsWithin(f, p, c, rest);
    ReadOpening(f, p, c);
    OpenedFits(p, c);
    IdatOpens(p, c);
    ParseFrom(f, p, Opened(p, c), head, c.data);
    IdatTail(f, Opened(p, c), c.data);
  }

  lemma {:induction false} IdatsEncodable(pieces: seq<seq<byte>>)
    requires Pieces(pieces)
    ensures Encodables(Tail(pieces))
    decreases |pieces|
  {
    if pieces != [] {
      IdatsEncodable(pieces[1..]);
      assert Tail(pieces) == [Chunk(IDAT, pieces[0])] + Tail(pieces[1..]);
    }
  }

  // ----- the header -----

  predicate ImageHeader(h: Header) { LegalHeader(h) && HeaderOk(h) && h.width < U32 && h.interlace < 256 }

  function WriteHeader(h: Header): (b: seq<byte>)
    requires h.width < U32 && h.height < U32 && h.depth < 256 && h.colorType < 256
    requires h.compression < 256 && h.filter < 256 && h.interlace < 256
    ensures |b| == 13
  {
    WriteU32(h.width) + WriteU32(h.height) + [h.depth, h.colorType, h.compression, h.filter, h.interlace]
  }

  lemma HeaderRoundTrip(h: Header)
    requires h.width < U32 && h.height < U32 && h.depth < 256 && h.colorType < 256
    requires h.compression < 256 && h.filter < 256 && h.interlace < 256
    ensures ReadHeader(WriteHeader(h)) == h
  {
    hide ReadU32, WriteU32;
    U32RoundTrip(h.width);
    U32RoundTrip(h.height);
    var b := WriteHeader(h);
    assert b[..4] == WriteU32(h.width) && b[4..8] == WriteU32(h.height);
  }

  // ----- the tables -----

  /** The payloads of gAMA, PLTE and tRNS; [] stands for an absent chunk. */
  datatype Tables = Tables(gama: seq<byte>, plte: seq<byte>, trns: seq<byte>)

  const NoTables := Tables([], [], [])

  /** The tables section 4 allows beside this header. */
  predicate TablesFor(h: Header, t: Tables) {
    && |t.gama| < U32 && |t.gama| % 4 == 0
    && (h.colorType == 3 ==> t.plte != [])
    && (t.plte != [] ==>
          (h.colorType == 3 || IsRgb(h.colorType)) && |t.plte| % 3 == 0 && |t.plte| / 3 <= PaletteLimit(h.depth))
    && (t.trns != [] ==> TransSizeOk(h, |t.trns|))
  }

  function Present(data: seq<byte>): Option<seq<byte>> { if data == [] then None else Some(data) }

  /** Of several values in one chunk the last one counts. */
  function GammaIn(gama: seq<byte>): Option<nat> {
    if |gama| < 4 then None else Some(ReadU32(gama[|gama| - 4..]))
  }

  ghost predicate HasTables<I>(p: Parser<I>, h: Header, t: Tables) {
    && p.hdr == h && p.channels == Channels(h.colorType)
    && p.palette == Present(t.plte) && p.nPalettes == |t.plte| / 3
    && p.trans == Present(t.trns) && p.nTrans == |t.trns| / TransUnit(h.colorType)
    && p.gamma == GammaIn(t.gama)
  }

  /** Just before the first IDAT: the header is known and the tables are filled. */
  ghost predicate Ready<I>(p: Parser<I>, h: Header, t: Tables, i: I) {
    p.state.FindChunkHeader? && HasTables(p, h, t) && p.idat == i && !p.idatSeen
  }

  function Optional(chunkType: nat, data: seq<byte>): seq<Chunk> {
    if data == [] then [] else [Chunk(chunkType, data)]
  }

  function ImageChunks(h: Header, t: Tables, pieces: seq<seq<byte>>): seq<Chunk>
    requires ImageHeader(h)
  {
    [Chunk(IHDR, WriteHeader(h))]
    + (Optional(gAMA, t.gama) + (Optional(PLTE, t.plte) + (Optional(tRNS, t.trns) + Tail(pieces))))
  }

  /** The parser behind an optional chunk. */
  function Past<I>(f: IdatStep<I>, p: Parser<I>, chunkType: nat, data: seq<byte>): Parser<I>
    requires chunkType < U32 && |data| < U32
  {
    if data == [] then p else Apply(f, p, Chunk(chunkType, data))
  }

  /** From p the chunks cs come to the same as their rest from q. */
  ghost predicate Leads<I>(f: IdatStep<I>, p: Parser<I>, cs: seq<Chunk>, q: Parser<I>, rest: seq<Chunk>)
    requires Fits(p) && Fits(q) && Encodables(rest)
  {
    && Encodables(cs) && (SoundAll(f, q, rest) ==> SoundAll(f, p, cs))
    && Parse(f, p, EncodeAll(cs)) == Parse(f, q, EncodeAll(rest))
  }

  lemma PassOptional<I>(f: IdatStep<I>, p: Parser<I>, chunkType: nat, data: seq<byte>, rest: seq<Chunk>)
    requires Fits(p) && p.state.FindChunkHeader? && chunkType < U32 && |data| < U32 && Encodables(rest)
    requires data != [] ==> Allowed(f, p, Chunk(chunkType, data))
    ensures var q := Past(f, p, chunkType, data); Fits(q) && Leads(f, p, Optional(chunkType, data) + rest, q, rest)
  {
    hide Fits, Parse, Allowed, Apply, Encode, EncodeAll, Stalls;
    var c := Chunk(chunkType, data);
    assert [] + rest == rest && ([c] + rest)[1..] == rest;
    if data != [] {
      EncodeOne(c, rest);
      ChunkRead(f, p, c, EncodeAll(rest));
    }
  }

  lemma ReadHeaderChunk<I>(f: IdatStep<I>, h: Header, i: I)
    requires ImageHeader(h)
    ensures var p, c := AfterSignature(i), Chunk(IHDR, WriteHeader(h));
            Allowed(f, p, c) && Ready(Apply(f, p, c), h, NoTables, i)
  {
    hide Crc, WriteU32, ReadU32, WriteHeader, ReadHeader;
    HeaderRoundTrip(h);
    assert WriteHeader(h)[9] == h.colorType by { HeaderColourByte(h); }
  }

  lemma HeaderColourByte(h: Header)
    requires h.width < U32 && h.height < U32 && h.depth < 256 && h.colorType < 256
    requires h.compression < 256 && h.filter < 256 && h.interlace < 256
    ensures WriteHeader(h)[9] == h.colorType
  {
  }

  lemma ReadGammaChunk<I>(f: IdatStep<I>, p: Parser<I>, h: Header, t: Tables, i: I)
    requires Ready(p, h, NoTables, i) && TablesFor(h, t)
    ensures t.gama != [] ==> Allowed(f, p, Chunk(gAMA, t.gama))
    ensures Ready(Past(f, p, gAMA, t.gama), h, Tables(t.gama, [], []), i)
  {
    hide Crc, WriteU32, ReadU32, PaletteLimit;
  }

  lemma ReadPaletteChunk<I>(f: IdatStep<I>, p: Parser<I>, h: Header, t: Tables, i: I)
    requires Ready(p, h, Tables(t.gama, [], []), i) && TablesFor(h, t) && LegalHeader(h)
    ensures |t.plte| <= 768 && (t.plte != [] ==> Allowed(f, p, Chunk(PLTE, t.plte)))
    ensures Ready(Past(f, p, PLTE, t.plte), h, t.(trns := []), i)
  {
    hide Crc, WriteU32, ReadU32;
  }

  lemma ReadTransChunk<I>(f: IdatStep<I>, p: Parser<I>, h: Header, t: Tables, i: I)
    requires Ready(p, h, t.(trns := []), i) && TablesFor(h, t) && LegalHeader(h)
    ensures |t.trns| <= 256 && (t.trns != [] ==> Allowed(f, p, Chunk(tRNS, t.trns)))
    ensures Ready(Past(f, p, tRNS, t.trns), h, t, i)
  {
    hide Crc, WriteU32, ReadU32;
  }

  /** What reading the file of an image leaves, besides the registers of its last chunk. */
  ghost predicate ReadAs<I>(f: IdatStep<I>, r: (Parser<I>, seq<byte>), h: Header, t: Tables, i: I, s: seq<byte>) {
    && HasTables(r.0, h, t) && r.0.idat == Taking(f, i, s).0
    && if Overrun(f, i, s) then Stalled(f, r.0, r.1) else r.0.state.Eof? && r.1 == []
  }

  lemma LeadsOn<I>(f: IdatStep<I>, p: Parser<I>, cs: seq<Chunk>, q: Parser<I>, mid: seq<Chunk>, u: Parser<I>,
                   rest: seq<Chunk>)
    requires Fits(p) && Fits(q) && Fits(u) && Encodables(mid) && Encodables(rest)
    requires Leads(f, p, cs, q, mid) && Leads(f, q, mid, u, rest)
    ensures Leads(f, p, cs, u, rest)
  {
    hide Fits, Parse, SoundAll, EncodeAll;
  }

  /** The chunks of the tables fill them, and what follows is read from there. */
  lemma TablesRead<I>(f: IdatStep<I>, p: Parser<I>, h: Header, t: Tables, i: I, rest: seq<Chunk>) returns (q: Parser<I>)
    requires Fits(p) && Ready(p, h, NoTables, i) && TablesFor(h, t) && LegalHeader(h) && Encodables(rest)
    ensures Fits(q) && Ready(q, h, t, i)
    ensures Leads(f, p, Optional(gAMA, t.gama) + (Optional(PLTE, t.plte) + (Optional(tRNS, t.trns) + rest)), q, rest)
  {
    ReadGammaChunk(f, p, h, t, i);
    var p1 := Past(f, p, gAMA, t.gama);
    ReadPaletteChunk(f, p1, h, t, i);
    var p2 := Past(f, p1, PLTE, t.plte);
    ReadTransChunk(f, p2, h, t, i);
    q := Past(f, p2, tRNS, t.trns);
    hide Fits, Allowed, LegalHeader, HasTables, Leads, Optional, Past, Encodables;
    var r2 := Optional(tRNS, t.trns) + rest;
    var r1 := Optional(PLTE, t.plte) + r2;
    OptionalEncodable(tRNS, t.trns, rest);
    OptionalEncodable(PLTE, t.plte, r2);
    PassOptional(f, p, gAMA, t.gama, r1);
    PassOptional(f, p1, PLTE, t.plte, r2);
    PassOptional(f, p2, tRNS, t.trns, rest);
    LeadsOn(f, p1, r1, p2, r2, q, rest);
    LeadsOn(f, p, Optional(gAMA, t.gama) + r1, p1, r1, q, rest);
  }

  lemma HeadRead<I>(f: IdatStep<I>, h: Header, t: Tables, pieces: seq<seq<byte>>, i: I) returns (q: Parser<I>)
    requires ImageHeader(h) && TablesFor(h, t) && Encodables(Tail(pieces))
    ensures Fits(AfterSignature(i)) && Fits(q) && Ready(q, h, t, i)
    ensures Leads(f, AfterSignature(i), ImageChunks(h, t, pieces), q, Tail(pieces))
  {
    var p, b, rest := AfterSignature(i), WriteHeader(h), Tail(pieces);
    var tables := Optional(gAMA, t.gama) + (Optional(PLTE, t.plte) + (Optional(tRNS, t.trns) + rest));
    assert ImageChunks(h, t, pieces) == Optional(IHDR, b) + tables;
    StartFits(i);
    ReadHeaderChunk(f, h, i);
    hide ImageChunks, Fits, Allowed, WriteHeader, ImageHeader, TablesFor, Past;
    hide Encodable, Optional, HasTables, Tail, Leads, AfterSignature;
    var p0 := Past(f, p, IHDR, b);
    SizesFitChunks(h, t);
    OptionalEncodable(tRNS, t.trns, rest);
    OptionalEncodable(PLTE, t.plte, Optional(tRNS, t.trns) + rest);
    OptionalEncodable(gAMA, t.gama, Optional(PLTE, t.plte) + (Optional(tRNS, t.trns) + rest));
    PassOptional(f, p, IHDR, b, tables);
    assert p0 == Apply(f, p, Chunk(IHDR, b)) by { PastIs(f, p, IHDR, b); }
    q := TablesRead(f, p0, h, t, i, rest);
    LeadsOn(f, p, Optional(IHDR, b) + tables, p0, tables, q, rest);
  }

  lemma PastIs<I>(f: IdatStep<I>, p: Parser<I>, chunkType: nat, data: seq<byte>)
    requires chunkType < U32 && |data| < U32 && data != []
    ensures Past(f, p, chunkType, data) == Apply(f, p, Chunk(chunkType, data))
  {
  }

  /** The chunks of an image leave its header, its tables and what its payload led to. */
  lemma ImageChunksRead<I>(f: IdatStep<I>, h: Header, t: Tables, pieces: seq<seq<byte>>, i: I)
    requires ImageHeader(h) && TablesFor(h, t) && pieces != [] && Pieces(pieces) && Fair(f, i, Flatten(pieces))
    ensures var cs, p := ImageChunks(h, t, pieces), AfterSignature(i);
            Fits(p) && Encodables(cs) && SoundAll(f, p, cs)
            && ReadAs(f, Parse(f, p, EncodeAll(cs)), h, t, i, Flatten(pieces))
  {
    hide ImageChunks, Fits, Parse, SoundAll, EncodeAll, ImageHeader, TablesFor, Overrun, AfterSignature;
    hide Taking, Stalled, Fair, Pieces, HasTables, Tail;
    IdatsEncodable(pieces);
    var q := HeadRead(f, h, t, pieces, i);
    MayHaveIdat(q, h, t, i);
    PayloadRead(f, q, pieces);
    TablesStay(q, Parse(f, q, EncodeAll(Tail(pieces))).0, h, t);
  }

  lemma SizesFitChunks(h: Header, t: Tables)
    requires ImageHeader(h) && TablesFor(h, t)
    ensures LegalHeader(h) && |WriteHeader(h)| == 13 && |t.gama| < U32 && |t.plte| <= 768 && |t.trns| <= 256
  {
    hide WriteHeader;
  }

  lemma OptionalEncodable(chunkType: nat, data: seq<byte>, rest: seq<Chunk>)
    requires chunkType < U32 && |data| < U32 && Encodables(rest)
    ensures Encodables(Optional(chunkType, data) + rest)
  {
  }

  lemma MayHaveIdat<I>(p: Parser<I>, h: Header, t: Tables, i: I)
    requires Ready(p, h, t, i) && ImageHeader(h) && TablesFor(h, t)
    ensures p.channels != 0 && (p.hdr.colorType == 3 ==> p.palette.Some?)
  {
  }

  lemma TablesStay<I>(p: Parser<I>, q: Parser<I>, h: Header, t: Tables)
    requires HasTables(p, h, t) && Lasting(q, p.idat) == Lasting(p, p.idat)
    ensures HasTables(q, h, t)
  {
  }

  lemma StartFits<I>(i: I)
    ensures Fits(AfterSignature(i)) && Fits(Start(i))
  {
  }

  // ----- whole files -----

  /** The calls bring, in all, a file of this header, these tables and this payload, cut into pieces, with any
      chunks between that the decoder does not know. */
  ghost predicate FileOf(h: Header, t: Tables, pieces: seq<seq<byte>>, cs: seq<Chunk>, calls: seq<seq<byte>>)
    requires ImageHeader(h)
  {
    && TablesFor(h, t) && pieces != [] && Pieces(pieces)
    && Encodables(cs) && cs != [] && cs[|cs| - 1] == TheEnd && Relevant(cs) == ImageChunks(h, t, pieces)
    && Flatten(calls) == Signature + EncodeAll(cs)
  }

  lemma NothingLeft<I>(f: IdatStep<I>, p: Parser<I>, buf: seq<byte>)
    requires Fits(p) && Parse(f, p, buf).0.state.Eof?
    ensures Parse(f, p, buf).1 == []
  {
    hide Fits, Parse;
    LeftoverIsShort(f, p, buf);
  }

  /** In any calls, with unknown chunks anywhere and the payload cut anywhere, the file is read as its parts: to
      its end if the payload is all taken, else up to the first byte that is not. */
  lemma FileReadInAnyCalls<I>(f: IdatStep<I>, i: I, h: Header, t: Tables, pieces: seq<seq<byte>>, cs: seq<Chunk>,
                              calls: seq<seq<byte>>)
    requires ImageHeader(h) && FileOf(h, t, pieces, cs, calls) && Fair(f, i, Flatten(pieces))
    ensures Fits(Start(i)) && SoundAll(f, AfterSignature(i), cs)
    ensures ReadAs(f, CallByCall(f, Start(i), [], calls), h, t, i, Flatten(pieces))
  {
    hide Parse, Taking, SoundAll, EncodeAll, Relevant, ImageChunks, Fits, CallByCall, Flatten, Encodable, Stalled;
    hide ImageHeader, TablesFor, Pieces, Fair, Overrun, HasTables, Core;
    var p := AfterSignature(i);
    StartFits(i);
    ImageChunksRead(f, h, t, pieces, i);
    AncillaryIgnored(f, p, p, cs);
    ParseUnit(f, Start(i), Signature);
    ParseFrom(f, Start(i), p, Signature, EncodeAll(cs));
    ParseStopped(f, Start(i), []);
    SplitIndependent(f, Start(i), [], calls);
    assert [] + Flatten(calls) == Flatten(calls);
    if Parse(f, p, EncodeAll(cs)).0.state.Eof? { NothingLeft(f, p, EncodeAll(cs)); }
    CoreKeepsReading(f, Parse(f, p, EncodeAll(Relevant(cs))), Parse(f, p, EncodeAll(cs)), h, t, i, Flatten(pieces));
  }

  lemma CoreKeepsReading<I>(f: IdatStep<I>, r: (Parser<I>, seq<byte>), s: (Parser<I>, seq<byte>), h: Header, t: Tables,
                            i: I, payload: seq<byte>)
    requires Alike(f, r, s) && ReadAs(f, r, h, t, i, payload) && (s.0.state.Eof? ==> s.1 == [])
    ensures ReadAs(f, s, h, t, i, payload)
  {
    hide Taking, Overrun, Stalled;
  }

  /** Chunks the decoder knows, of a size that can be written. */
  predicate Known(cs: seq<Chunk>) { forall c | c in cs :: Encodable(c) && !Ancillary(c.chunkType) }

  lemma KnownTogether(a: seq<Chunk>, b: seq<Chunk>)
    requires Known(a) && Known(b)
    ensures Known(a + b)
  {
    hide Encodable, Ancillary;
  }

  lemma {:induction false} KnownRelevant(cs: seq<Chunk>)
    requires Known(cs)
    ensures Relevant(cs) == cs
    decreases |cs|
  {
    hide Encodable, Ancillary;
    if cs != [] {
      KnownRelevant(cs[1..]);
      assert [cs[0]] + cs[1..] == cs;
    }
  }

  lemma {:induction false} IdatsKnown(pieces: seq<seq<byte>>)
    requires Pieces(pieces)
    ensures Known(IdatChunks(pieces))
    decreases |pieces|
  {
    if pieces != [] {
      IdatsKnown(pieces[1..]);
      KnownTogether([Chunk(IDAT, pieces[0])], IdatChunks(pieces[1..]));
    }
  }

  lemma TablesKnown(h: Header, t: Tables)
    requires TablesFor(h, t)
    ensures Known(Optional(gAMA, t.gama)) && Known(Optional(PLTE, t.plte)) && Known(Optional(tRNS, t.trns))
  {
    assert |t.plte| <= 768 && |t.trns| <= 256;
  }

  lemma ImageChunksKnown(h: Header, t: Tables, pieces: seq<seq<byte>>)
    requires ImageHeader(h) && TablesFor(h, t) && Pieces(pieces)
    ensures var cs := ImageChunks(h, t, pieces);
            Encodables(cs) && Relevant(cs) == cs && cs != [] && cs[|cs| - 1] == TheEnd
  {
    var head, tail := [Chunk(IHDR, WriteHeader(h))], Tail(pieces);
    assert Known(head) && Known([TheEnd]);
    hide ImageHeader, Known, Optional, WriteHeader, IdatChunks;
    IdatsKnown(pieces);
    TablesKnown(h, t);
    KnownTogether(IdatChunks(pieces), [TheEnd]);
    KnownTogether(Optional(tRNS, t.trns), tail);
    KnownTogether(Optional(PLTE, t.plte), Optional(tRNS, t.trns) + tail);
    KnownTogether(Optional(gAMA, t.gama), Optional(PLTE, t.plte) + (Optional(tRNS, t.trns) + tail));
    KnownTogether(head, Optional(gAMA, t.gama) + (Optional(PLTE, t.plte) + (Optional(tRNS, t.trns) + tail)));
    KnownRelevant(ImageChunks(h, t, pieces));
  }
}
