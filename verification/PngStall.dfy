/** The files that stop the parser without an error: exactly which they are, and what the caller then sees. */
module PngStall {
  import opened Basics
  import opened PngFormat
  import opened PngChunks
  import opened PngFeed
  import opened PngFile

  predicate BadGamma(c: Chunk) { c.chunkType == gAMA && |c.data| % 4 != 0 }

  /** An IDAT chunk that may come next and holds bytes that inflate does not take. */
  predicate LongIdat<I>(f: IdatStep<I>, p: Parser<I>, c: Chunk)
    requires Encodable(c)
  {
    c.chunkType == IDAT && !Opened(p, c).state.Error? && Overrun(f, p.idat, c.data)
  }

  predicate Stalls<I>(f: IdatStep<I>, p: Parser<I>, c: Chunk)
    requires Encodable(c)
  {
    BadGamma(c) || LongIdat(f, p, c)
  }

  /** The bytes of its payload that are never taken. */
  function Untaken<I>(f: IdatStep<I>, p: Parser<I>, c: Chunk): nat {
    if BadGamma(c) then |c.data| % 4 else |c.data| - Taking(f, p.idat, c.data).1
  }

  /** Once stalled, whatever follows is only added to what is left over. */
  lemma StallStays<I>(f: IdatStep<I>, p: Parser<I>, a: seq<byte>, b: seq<byte>)
    requires Fits(p) && Stalled(f, Parse(f, p, a).0, Parse(f, p, a).1)
    ensures var r := Parse(f, p, a);
            Parse(f, p, a + b) == (r.0, r.1 + b) && Stalled(f, r.0, r.1 + b) && !r.0.state.Error?
  {
    hide Fits, Parse;
    var r := Parse(f, p, a);
    ParseConcat(f, p, a, b);
    StillStalled(f, r.0, r.1, b);
    ParseStopped(f, r.0, r.1 + b);
  }

  lemma StillStalled<I>(f: IdatStep<I>, p: Parser<I>, a: seq<byte>, b: seq<byte>)
    requires Stalled(f, p, a)
    ensures Stalled(f, p, a + b) && !p.state.Error?
  {
  }

  /** Whole units are taken until fewer than four bytes of the chunk are left. */
  lemma {:induction false} GammaTail<I>(f: IdatStep<I>, p: Parser<I>, s: seq<byte>)
    requires Fits(p) && p.state.HandleChunk? && p.chunkType == gAMA && |s| == p.remain && |s| % 4 != 0
    ensures var r := Parse(f, p, s); Stuck(r.0) && |r.1| == |s| % 4
    decreases |s|
  {
    hide Crc, ReadU32, Fits;
    if |s| > 4 {
      var a, b := s[..4], s[4..];
      assert a + b == s;
      ParseUnit(f, p, a);
      UnitFits(f, p, a);
      var q := Payload(f, p, a);
      GammaTail(f, q, b);
      ParseFrom(f, p, q, a, b);
    }
  }

  lemma GammaOpens<I>(p: Parser<I>, c: Chunk)
    requires Encodable(c) && c.chunkType == gAMA
    ensures Opened(p, c) == p.(remain := |c.data|, chunkType := gAMA, crc := Crc(0, WriteU32(gAMA)),
                               state := HandleChunk)
  {
    hide Crc, WriteU32;
  }

  /** All but the registers a chunk leaves behind, and where its payload has led. */
  function Lasting<I>(p: Parser<I>, i: I): Parser<I> {
    p.(state := HandleChunk, chunkType := 0, remain := 0, crc := 0, idatSeen := true, idat := i)
  }

  /** Bytes are taken up to the first that waits. */
  lemma IdatTail<I>(f: IdatStep<I>, p: Parser<I>, s: seq<byte>)
    requires Fits(p) && p.state.HandleChunk? && p.chunkType == IDAT && |s| == p.remain && Overrun(f, p.idat, s)
    ensures var r, t := Parse(f, p, s), Taking(f, p.idat, s);
            Waiting(f, r.0, r.1) && |r.1| == |s| - t.1 && Lasting(r.0, t.0) == Lasting(p, t.0) && r.0.idat == t.0
  {
    hide Crc, Parse, Fits, Taking;
    BulkIdat(f, p, s);
    if Taking(f, p.idat, s).1 == 0 { NoneTaken(f, p.idat, s); }
  }

  lemma IdatOpens<I>(p: Parser<I>, c: Chunk)
    requires Encodable(c) && c.chunkType == IDAT && !Opened(p, c).state.Error?
    ensures Opened(p, c) == p.(remain := |c.data|, chunkType := IDAT, crc := Crc(0, WriteU32(IDAT)),
                               state := HandleChunk, idatSeen := true)
    ensures c.data != []
  {
    hide Crc, WriteU32;
  }

  /** A chunk that opens but is not acceptable: a bad header, a broken stream, or one that stalls. */
  lemma UnacceptableFails<I>(f: IdatStep<I>, p: Parser<I>, c: Chunk)
    requires Fits(p) && p.state.FindChunkHeader? && Encodable(c) && Fits(Opened(p, c))
    requires !Opened(p, c).state.Error? && !Allowed(f, p, c) && !Stalls(f, p, c)
    ensures Parse(f, Opened(p, c), c.data).0.state.Error?
  {
    hide Fits, Crc, ReadU32, WriteU32, Taking, HeaderOk, Parse;
    var q := Opened(p, c);
    if c.chunkType == IHDR {
      ParseUnit(f, q, c.data);
    } else {
      IdatOpens(p, c);
      BulkIdat(f, q, c.data);
    }
  }

  /** Reading a chunk up to its check value stalls the parser exactly when it is a gAMA chunk whose length is no
      multiple of four, or an IDAT chunk with bytes that inflate does not take. */
  lemma ChunkStallsIff<I>(f: IdatStep<I>, p: Parser<I>, c: Chunk)
    requires Fits(p) && p.state.FindChunkHeader? && Encodable(c)
    ensures var r := Parse(f, p, Front(c));
            (Stalled(f, r.0, r.1) <==> Stalls(f, p, c)) && (Stalls(f, p, c) ==> |r.1| == Untaken(f, p, c))
  {
    hide Fits, Parse, Opened, Allowed, Crc, WriteU32, Closed, Overrun, Taking;
    var head := WriteU32(|c.data|) + WriteU32(c.chunkType);
    var q := Opened(p, c);
    ReadOpening(f, p, c);
    OpenedFits(p, c);
    ParseFrom(f, p, q, head, c.data);
    if BadGamma(c) {
      GammaOpens(p, c);
      GammaTail(f, q, c.data);
    } else if q.state.Error? {
      ParseStopped(f, q, c.data);
    } else if LongIdat(f, p, c) {
      IdatOpens(p, c);
      IdatTail(f, q, c.data);
    } else if !Allowed(f, p, c) {
      UnacceptableFails(f, p, c);
    } else {
      AllowedGoesOn(f, p, c);
    }
  }

  lemma AllowedGoesOn<I>(f: IdatStep<I>, p: Parser<I>, c: Chunk)
    requires Fits(p) && p.state.FindChunkHeader? && Allowed(f, p, c) && Fits(Opened(p, c))
    ensures var r := Parse(f, Opened(p, c), c.data); !Stalled(f, r.0, r.1)
  {
    hide Fits, Parse, Opened, Crc, WriteU32, Closed, FoldIdat;
    OpenedIs(f, p, c);
    if c.data == [] {
      ParseStopped(f, Opened(p, c), c.data);
    } else {
      ReadPayload(f, p, c);
      ClosedIsNotStalled(f, p, c);
    }
  }

  lemma ClosedIsNotStalled<I>(f: IdatStep<I>, p: Parser<I>, c: Chunk)
    requires Encodable(c)
    ensures !Stalled(f, Closed(f, p, c), [])
  {
  }

  // ----- whole files -----

  /** Acceptable, but for what stalls. */
  predicate Sound<I>(f: IdatStep<I>, p: Parser<I>, c: Chunk) { Encodable(c) && (Stalls(f, p, c) || Allowed(f, p, c)) }

  /** Every chunk up to a first one that stalls is acceptable where it stands. */
  predicate SoundAll<I>(f: IdatStep<I>, p: Parser<I>, cs: seq<Chunk>)
    decreases |cs|
  {
    cs == []
    || (p.state.FindChunkHeader? && Sound(f, p, cs[0])
        && (Stalls(f, p, cs[0]) || SoundAll(f, Apply(f, p, cs[0]), cs[1..])))
  }

  predicate Encodables(cs: seq<Chunk>) { forall c | c in cs :: Encodable(c) }

  predicate StallsAny<I>(f: IdatStep<I>, p: Parser<I>, cs: seq<Chunk>)
    requires Encodables(cs)
    decreases |cs|
  {
    cs != [] && (Stalls(f, p, cs[0]) || StallsAny(f, Apply(f, p, cs[0]), cs[1..]))
  }

  /** The bytes from inside the first chunk that stalls on: what is left of it, its check value, and all behind it. */
  function Unread<I>(f: IdatStep<I>, p: Parser<I>, cs: seq<Chunk>): nat
    requires Encodables(cs)
    decreases |cs|
  {
    if cs == [] then 0
    else if Stalls(f, p, cs[0]) then Untaken(f, p, cs[0]) + 4 + |EncodeAll(cs[1..])|
    else Unread(f, Apply(f, p, cs[0]), cs[1..])
  }

  lemma {:induction false} ChunksStallIff<I>(f: IdatStep<I>, p: Parser<I>, cs: seq<Chunk>)
    requires Fits(p) && !Halted(p) && Encodables(cs) && SoundAll(f, p, cs)
    ensures var r := Parse(f, p, EncodeAll(cs));
            !r.0.state.Error? && |r.1| == Unread(f, p, cs) && (Stalled(f, r.0, r.1) <==> StallsAny(f, p, cs))
    decreases |cs|
  {
    hide Fits, Parse, Allowed, Apply, Front, Crc, Encodable, Stalled, Stalls, Untaken, WriteU32;
    if cs == [] {
      ParseStopped(f, p, []);
      NothingOffered(f, p);
    } else {
      var c, rest := cs[0], cs[1..];
      if Stalls(f, p, c) {
        ChunkStallsIff(f, p, c);
        var tail := WriteU32(Check(c)) + EncodeAll(rest);
        assert EncodeAll(cs) == Front(c) + tail;
        StallStays(f, p, Front(c), tail);
      } else {
        ChunkRead(f, p, c, EncodeAll(rest));
        AppliedGoesOn(f, p, c);
        ChunksStallIff(f, Apply(f, p, c), rest);
      }
    }
  }

  lemma NothingOffered<I>(f: IdatStep<I>, p: Parser<I>)
    requires !Halted(p)
    ensures !Stalled(f, p, [])
  {
  }

  lemma AppliedGoesOn<I>(f: IdatStep<I>, p: Parser<I>, c: Chunk)
    requires Encodable(c)
    ensures !Halted(Apply(f, p, c))
  {
  }

  // ----- the same, read off the file -----

  /** The IDAT payloads of a file, as one stream. */
  function IdatData(cs: seq<Chunk>): seq<byte> {
    if cs == [] then []
    else (if cs[0].chunkType == IDAT then cs[0].data else []) + IdatData(cs[1..])
  }

  lemma ApplyIdat<I>(f: IdatStep<I>, p: Parser<I>, c: Chunk)
    requires Allowed(f, p, c)
    ensures if c.chunkType == IDAT then FoldIdat(f, p.idat, c.data) == Some(Apply(f, p, c).idat)
            else Apply(f, p, c).idat == p.idat
  {
    hide FoldIdat, Crc, WriteU32, ReadU32, HeaderOk, BeginChunk;
  }

  /** Which chunk stalls, if one does, can be told without parsing: a gAMA chunk by its length, an IDAT chunk by
      where the stream made of all of them stops being taken. */
  lemma {:induction false} StallsAnyIff<I>(f: IdatStep<I>, p: Parser<I>, cs: seq<Chunk>)
    requires Encodables(cs) && SoundAll(f, p, cs)
    ensures StallsAny(f, p, cs) <==> (exists c :: c in cs && BadGamma(c)) || Overrun(f, p.idat, IdatData(cs))
    decreases |cs|
  {
    hide Allowed, Apply, Encodable, BadGamma, FoldIdat, Opened, Overrun;
    if cs == [] {
      assert !Overrun(f, p.idat, []) by { NoOverrun(f, p.idat); }
    } else {
      var c, rest := cs[0], cs[1..];
      if c.chunkType == IDAT {
        OverrunConcat(f, p.idat, c.data, IdatData(rest));
        if LongIdat(f, p, c) { OverrunIsNoFold(f, p.idat, c.data); }
      } else {
        assert IdatData(cs) == IdatData(rest);
      }
      if !Stalls(f, p, c) {
        ApplyIdat(f, p, c);
        StallsAnyIff(f, Apply(f, p, c), rest);
        assert (exists d :: d in cs && BadGamma(d)) <==> exists d :: d in rest && BadGamma(d);
      }
    }
  }

  lemma NoOverrun<I>(f: IdatStep<I>, i: I)
    ensures !Overrun(f, i, [])
  {
  }

  lemma OverrunIsNoFold<I>(f: IdatStep<I>, i: I, s: seq<byte>)
    requires Overrun(f, i, s)
    ensures FoldIdat(f, i, s).None?
  {
  }

  /** A whole file: stalled exactly when a gAMA chunk has a bad length or the IDAT stream holds bytes that are not
      taken, and what is never taken begins inside that chunk. */
  lemma FileStallsIff<I>(f: IdatStep<I>, idat: I, cs: seq<Chunk>)
    requires Encodables(cs) && SoundAll(f, AfterSignature(idat), cs)
    ensures Fits(Start(idat))
    ensures var r := Parse(f, Start(idat), Signature + EncodeAll(cs));
            && !r.0.state.Error? && |r.1| == Unread(f, AfterSignature(idat), cs)
            && (Stalled(f, r.0, r.1) <==> (exists c :: c in cs && BadGamma(c)) || Overrun(f, idat, IdatData(cs)))
  {
    hide Parse, SoundAll, EncodeAll, BadGamma, Encodable, Unread, StallsAny, Overrun;
    ParseUnit(f, Start(idat), Signature);
    ParseFrom(f, Start(idat), AfterSignature(idat), Signature, EncodeAll(cs));
    ChunksStallIff(f, AfterSignature(idat), cs);
    StallsAnyIff(f, AfterSignature(idat), cs);
  }

  /** For instance: a gAMA chunk of five bytes right after the signature, whatever follows. */
  lemma FiveByteGammaStalls<I>(f: IdatStep<I>, idat: I, more: seq<Chunk>)
    requires Encodables(more)
    ensures Fits(Start(idat)) && Encodables([Chunk(gAMA, Zeros(5))] + more)
    ensures var r := Parse(f, Start(idat), Signature + EncodeAll([Chunk(gAMA, Zeros(5))] + more));
            Stalled(f, r.0, r.1) && |r.1| == 5 + |EncodeAll(more)|
  {
    hide Parse, EncodeAll;
    var cs := [Chunk(gAMA, Zeros(5))] + more;
    assert cs[0] == Chunk(gAMA, Zeros(5)) && cs[0] in cs && cs[1..] == more;
    FileStallsIff(f, idat, cs);
  }

  /** The caller's loop on such a file: it gives up with a full buffer exactly when 1024 bytes or more are never
      taken; with fewer it ends as if all were well. It never reports an error. */
  method DecodeChunks<I>(p: Pngle<I>, cs: seq<Chunk>) returns (out: Outcome)
    requires p.Valid() && p.Abs() == Start(p.idat) && Encodables(cs) && SoundAll(p.step, AfterSignature(p.idat), cs)
    modifies p, p.palette, p.trans
    ensures p.Valid()
    ensures out == if Unread(p.step, AfterSignature(old(p.idat)), cs) >= BufSize then BufferExceeded else Finished
  {
    hide Parse, SoundAll, Unread, BadGamma, Encodable, Overrun;
    FileStallsIff(p.step, p.idat, cs);
    out := DecodeFile(p, Signature + EncodeAll(cs));
  }
}
