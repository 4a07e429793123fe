/**
 * The parser as it runs: fields updated in place, payload taken in bulk, and
 * the carry-over loop that feeds it from a file through a small buffer.
 */
module PngFeed {
  import opened Basics
  import opened PngFormat
  import opened PngChunks

  /** What handling some payload may do to the fields, before the caller counts it:
      fail where the reference fails, wait for a whole unit, or take what the reference takes. */
  ghost predicate Handled<I>(f: IdatStep<I>, p: Parser<I>, q: Parser<I>, buf: seq<byte>, consumed: int)
    requires Fits(p)
  {
    && -1 <= consumed <= |buf| <= p.remain == q.remain
    && (consumed == -1 ==> Fits(q) && q.state.Error? && p.remain > 0 && Parse(f, p, buf).0.state.Error?)
    && (consumed == 0 ==> q == p && (p.remain == 0 || |buf| < PayloadUnit(p) || Waiting(f, p, buf)))
    && (consumed > 0 ==> q.state.HandleChunk? && Parse(f, p, buf[..consumed]) == (Consume(q, buf[..consumed]), []))
  }

  predicate Handling<I>(p: Parser<I>, chunkType: nat, buf: seq<byte>) {
    p.state.HandleChunk? && p.chunkType == chunkType && |buf| <= p.remain
  }

  lemma HandledNothing<I>(f: IdatStep<I>, p: Parser<I>, buf: seq<byte>)
    requires Fits(p) && p.state.HandleChunk? && |buf| <= p.remain
    requires p.remain == 0 || |buf| < PayloadUnit(p) || Waiting(f, p, buf)
    ensures Handled(f, p, p, buf, 0)
  {
  }

  /** A whole unit that is accepted. */
  lemma HandledUnit<I>(f: IdatStep<I>, p: Parser<I>, q: Parser<I>, buf: seq<byte>)
    requires Fits(p) && p.state.HandleChunk? && 0 < PayloadUnit(p) <= |buf| <= p.remain == q.remain
      && q.state.HandleChunk? && !Waiting(f, p, buf)
    requires Payload(f, p, buf[..PayloadUnit(p)]) == Consume(q, buf[..PayloadUnit(p)])
    ensures Handled(f, p, q, buf, PayloadUnit(p))
  {
    hide Fits, Payload, Consume;
    ParseUnit(f, p, buf[..PayloadUnit(p)]);
  }

  lemma HandledIhdr<I>(f: IdatStep<I>, p: Parser<I>, buf: seq<byte>)
    requires Fits(p) && Handling(p, IHDR, buf) && |buf| >= 13
    ensures var q := p.(hdr := ReadHeader(buf[..13]), channels := Channels(buf[9]));
            if HeaderOk(q.hdr) then Handled(f, p, q, buf, 13) else Handled(f, p, Fail(q), buf, -1)
  {
    hide ReadHeader, LegalDepth, Channels, Crc;
    var q := p.(hdr := ReadHeader(buf[..13]), channels := Channels(buf[9]));
    assert ReadHeader(buf[..13]).colorType == buf[9] by { HeaderColor(buf[..13]); }
    if HeaderOk(q.hdr) {
      HandledUnit(f, p, q, buf);
    } else {
      assert buf[..13] == buf;
      UnitFits(f, p, buf);
      ParseUnit(f, p, buf);
    }
  }

  lemma HeaderColor(b: seq<byte>)
    requires |b| == 13
    ensures ReadHeader(b).colorType == b[9]
  {
  }

  lemma HandledIdat<I>(f: IdatStep<I>, p: Parser<I>, buf: seq<byte>)
    requires Fits(p) && Handling(p, IDAT, buf) && buf != []
    ensures var (i, n) := Taking(f, p.idat, buf);
            if n < |buf| && !f(i, buf[n]).Waits? then Handled(f, p, Fail(p), buf, -1)
            else Handled(f, p, p.(idat := i), buf, n)
  {
    hide Taking, Crc, Parse;
    BulkIdat(f, p, buf);
    var (i, n) := Taking(f, p.idat, buf);
    if n == 0 { NoneTaken(f, p.idat, buf); }
    if n == |buf| { assert buf[..n] == buf; }
  }

  lemma NoneTaken<I>(f: IdatStep<I>, i: I, s: seq<byte>)
    requires s != [] && Taking(f, i, s).1 == 0
    ensures Taking(f, i, s).0 == i && !f(i, s[0]).Took?
  {
  }

  /** The calloc'd table of the chunk at hand has room for the next unit. */
  lemma RoomForUnit<I>(p: Parser<I>)
    requires Fits(p) && p.state.HandleChunk? && p.remain >= PayloadUnit(p)
    ensures p.chunkType == PLTE ==> p.palette.Some? && 3 * p.nPalettes + PayloadUnit(p) <= |p.palette.value|
    ensures p.chunkType == tRNS ==> p.trans.Some? && p.nTrans + PayloadUnit(p) <= |p.trans.value|
    ensures p.chunkType == IEND ==> p.remain == 0
  {
  }

  lemma HandledAncillary<I>(f: IdatStep<I>, p: Parser<I>, buf: seq<byte>)
    requires Fits(p) && Handling(p, p.chunkType, buf) && Ancillary(p.chunkType) && buf != []
    ensures Handled(f, p, p, buf, |buf|)
  {
    hide Crc;
    assert buf[..|buf|] == buf;
    BulkSkip(f, p, buf);
  }

  /** One move, of r bytes or failing: the reference does the same, and without progress it could not go on. */
  ghost predicate Moved<I>(f: IdatStep<I>, p: Parser<I>, q: Parser<I>, buf: seq<byte>, r: int)
    requires Fits(p) && Fits(q)
  {
    && r <= |buf|
    && (r < 0 ==> q.state.Error? && Parse(f, p, buf).0.state.Error?)
    && (r >= 0 ==> !q.state.Error? && Parse(f, p, buf) == Parse(f, q, buf[r..]))
    && (r == 0 && q.state == p.state ==> Parse(f, p, buf) == (q, buf))
    && (r == 0 && q.state != p.state ==> p.state.HandleChunk? && q.state.CheckCrc?)
  }

  /** What the fields are once the caller has counted the bytes. */
  function AfterCount<I>(q: Parser<I>, b: seq<byte>): Parser<I>
    requires |b| <= q.remain
  {
    var t := if b == [] then q else q.(remain := q.remain - |b|, crc := Crc(q.crc, b));
    if t.remain == 0 then t.(state := CheckCrc) else t
  }

  lemma Counted<I>(f: IdatStep<I>, p: Parser<I>, q: Parser<I>, buf: seq<byte>, r: int)
    requires Fits(p) && p.state.HandleChunk? && buf != []
    requires Handled(f, p, q, buf[..Min(|buf|, p.remain)], r)
    ensures r <= |buf| && r <= q.remain
    ensures var t := AfterCount(q, if r > 0 then buf[..r] else []); Fits(t) && Moved(f, p, t, buf, r)
  {
    hide Crc, Fits, Payload;
    var len := Min(|buf|, p.remain);
    if r < 0 {
      ErrorStays(f, p, buf, len);
    } else if r == 0 {
      if p.remain == 0 {
        assert buf[..0] == [] && buf[0..] == buf;
        UnitFits(f, p, []);
        NothingTaken(f, p, []);
      }
    } else {
      assert buf[..len][..r] == buf[..r] && buf[..r] + buf[r..] == buf;
      ParseConcat(f, p, buf[..r], buf[r..]);
      var none: seq<byte> := [];
      assert none + buf[r..] == buf[r..] && AfterCount(q, buf[..r]) == Consume(q, buf[..r]);
    }
  }

  /** A unit outside a chunk's payload. */
  lemma MovedUnit<I>(f: IdatStep<I>, p: Parser<I>, buf: seq<byte>)
    requires Fits(p) && !Halted(p) && !p.state.HandleChunk? && buf != []
    ensures if |buf| < Need(p) then Moved(f, p, p, buf, 0)
            else
              var q := Unit(f, p, buf[..Need(p)]);
              Fits(q) && Moved(f, p, q, buf, if q.state.Error? then -1 else Need(p))
  {
    hide Unit, Fits;
    if |buf| >= Need(p) {
      UnitFits(f, p, buf[..Need(p)]);
      var q := Unit(f, p, buf[..Need(p)]);
      assert Parse(f, p, buf) == Parse(f, q, buf[Need(p)..]);
      assert q.state.Error? ==> Parse(f, q, buf[Need(p)..]) == (q, buf[Need(p)..]);
    }
  }

  lemma MovedAtEnd<I>(f: IdatStep<I>, p: Parser<I>, buf: seq<byte>)
    requires Fits(p) && buf != []
    ensures p.state.Error? ==> Moved(f, p, p, buf, -1)
    ensures p.state.Eof? ==> Moved(f, p, p, buf, |buf|)
  {
    hide Fits;
    if p.state.Eof? {
      assert buf[|buf|..] == [];
      BulkEof(f, p, buf);
    }
  }

  /** From p, the whole of buf comes to the same as its rest from q. */
  ghost predicate Reached<I>(f: IdatStep<I>, p: Parser<I>, q: Parser<I>, buf: seq<byte>, pos: int)
    requires Fits(p) && Fits(q)
  {
    0 <= pos <= |buf| && Parse(f, p, buf) == Parse(f, q, buf[pos..])
  }

  lemma ReachedStart<I>(f: IdatStep<I>, p: Parser<I>, buf: seq<byte>)
    requires Fits(p)
    ensures Reached(f, p, p, buf, 0)
  {
    hide Parse, Fits;
    assert buf[0..] == buf;
  }

  lemma ReachedNext<I>(f: IdatStep<I>, start: Parser<I>, p: Parser<I>, q: Parser<I>, buf: seq<byte>, pos: nat, r: int)
    requires Fits(start) && Fits(p) && Fits(q) && pos < |buf| && Reached(f, start, p, buf, pos)
      && Moved(f, p, q, buf[pos..], r)
    ensures r < 0 ==> q.state.Error? && Parse(f, start, buf).0.state.Error?
    ensures r >= 0 ==> pos + r <= |buf| && !q.state.Error? && Reached(f, start, q, buf, pos + r)
    ensures r == 0 && q.state == p.state ==> Parse(f, start, buf) == (q, buf[pos..])
    ensures r == 0 && q.state != p.state ==> p.state.HandleChunk? && q.state.CheckCrc?
  {
    hide Parse, Fits;
    if r >= 0 { assert buf[pos..][r..] == buf[pos + r..]; }
  }

  lemma ReachedEnd<I>(f: IdatStep<I>, p: Parser<I>, q: Parser<I>, buf: seq<byte>)
    requires Fits(p) && Fits(q) && Reached(f, p, q, buf, |buf|)
    ensures Parse(f, p, buf) == (q, buf[|buf|..])
  {
    hide Fits;
    assert buf[|buf|..] == [];
  }

  /** A call of pngle_feed: -1 exactly when the reference fails, else its state and what it leaves over. */
  ghost predicate Fed<I>(f: IdatStep<I>, p: Parser<I>, q: Parser<I>, buf: seq<byte>, r: int)
    requires Fits(p)
  {
    && r <= |buf|
    && (r < 0 <==> buf != [] && Parse(f, p, buf).0.state.Error?)
    && (r < 0 ==> q.state.Error?)
    && (r >= 0 ==> Parse(f, p, buf) == (q, buf[r..]))
  }

  /** The file up to at has been read: q is the state, buf what is carried over. */
  ghost predicate ReadTo<I>(f: IdatStep<I>, start: Parser<I>, q: Parser<I>, file: seq<byte>, at: int, buf: seq<byte>)
    requires Fits(start)
  {
    0 <= at <= |file| && Parse(f, start, file[..at]) == (q, buf) && !q.state.Error?
  }

  /** Topping the buffer up and feeding it is reading on in the file. */
  lemma ReadOn<I>(f: IdatStep<I>, start: Parser<I>, p: Parser<I>, q: Parser<I>,
                  file: seq<byte>, at: nat, buf: seq<byte>, more: seq<byte>, r: int)
    requires Fits(start) && Fits(p) && ReadTo(f, start, p, file, at, buf) && Fed(f, p, q, buf + more, r)
    requires more != [] && at + |more| <= |file| && more == file[at..at + |more|]
    ensures r < 0 ==> q.state.Error? && Parse(f, start, file).0.state.Error?
    ensures r >= 0 ==> r <= |buf + more| && ReadTo(f, start, q, file, at + |more|, (buf + more)[r..])
  {
    hide Fits, Parse;
    assert file[..at + |more|] == file[..at] + more;
    ParseConcat(f, start, file[..at], more);
    if r < 0 { ErrorStays(f, start, file, at + |more|); }
  }

  lemma ReadAll<I>(f: IdatStep<I>, start: Parser<I>, q: Parser<I>, file: seq<byte>, buf: seq<byte>)
    requires Fits(start) && ReadTo(f, start, q, file, |file|, buf)
    ensures Parse(f, start, file) == (q, buf) && !q.state.Error?
  {
    assert file[..|file|] == file;
  }

  /** A full buffer of which nothing is taken: the parser has stalled, and the rest of the file changes nothing. */
  lemma OnlyStalledFills<I>(f: IdatStep<I>, start: Parser<I>, q: Parser<I>, file: seq<byte>, at: nat, buf: seq<byte>)
    requires Fits(start) && ReadTo(f, start, q, file, at, buf) && |buf| >= 13
    ensures Stalled(f, q, buf + file[at..]) && !q.state.Error? && Parse(f, start, file) == (q, buf + file[at..])
  {
    LeftoverIsShort(f, start, file[..at]);
    ParseConcat(f, start, file[..at], file[at..]);
    hide Parse, Fits;
    assert file[..at] + file[at..] == file;
    ParseStopped(f, q, buf + file[at..]);
  }

  class Pngle<I> {
    const step: IdatStep<I>
    var state: State
    var chunkType: nat
    var remain: nat
    var crc: bv32
    var hdr: Header
    var channels: nat
    var palette: array?<byte>
    var nPalettes: nat
    var trans: array?<byte>
    var nTrans: nat
    var idatSeen: bool
    var gamma: Option<nat>
    var idat: I

    ghost function Abs(): Parser<I>
      reads this, palette, trans
    {
      Parser(state, chunkType, remain, crc, hdr, channels,
             if palette == null then None else Some(palette[..]), nPalettes,
             if trans == null then None else Some(trans[..]), nTrans,
             idatSeen, gamma, idat)
    }

    ghost predicate Valid()
      reads this, palette, trans
    {
      (palette == null || palette != trans) && Fits(Abs())
    }

    constructor (step: IdatStep<I>, idat: I)
      ensures Valid() && Abs() == Start(idat) && this.step == step && palette == null && trans == null
    {
      this.step := step;
      state, chunkType, remain, crc, hdr, channels := Initial, 0, 0, 0, Header(0, 0, 0, 0, 0, 0, 0), 0;
      palette, nPalettes, trans, nTrans := null, 0, null, 0;
      idatSeen, gamma, this.idat := false, None, idat;
    }

    /** memcpy into a calloc'd table. */
    static method Copy(a: array<byte>, at: nat, b: seq<byte>)
      requires at + |b| <= a.Length
      modifies a
      ensures a[..] == Overwrite(old(a[..]), at, b)
    {
      for i := 0 to |b|
        invariant a[..at] == old(a[..at]) && a[at..at + i] == b[..i] && a[at + i..] == old(a[at + i..])
      {
        a[at + i] := b[i];
      }
    }

    method TakePaletteEntry(buf: seq<byte>)
      requires Valid() && Handling(Abs(), PLTE, buf) && |buf| >= 3
      modifies this`nPalettes, palette
      ensures Handled(step, old(Abs()), Abs(), buf, 3)
    {
      ghost var p := Abs();
      RoomForUnit(p);
      HandledUnit(step, p, p.(palette := Some(Overwrite(palette[..], 3 * nPalettes, buf[..3])),
                              nPalettes := nPalettes + 1), buf);
      hide Handled, Fits, Parse;
      Copy(palette, nPalettes * 3, buf[..3]);
      nPalettes := nPalettes + 1;
    }

    method TakeTransEntry(buf: seq<byte>)
      requires Valid() && Handling(Abs(), tRNS, buf) && |buf| >= TransUnit(hdr.colorType)
      modifies this`nTrans, trans
      ensures Handled(step, old(Abs()), Abs(), buf, TransUnit(hdr.colorType))
    {
      ghost var p := Abs();
      var n := TransUnit(hdr.colorType);
      RoomForUnit(p);
      HandledUnit(step, p, p.(trans := Some(Overwrite(trans[..], nTrans, buf[..n])), nTrans := nTrans + 1), buf);
      hide Handled, Fits, Parse;
      Copy(trans, nTrans, buf[..n]);
      nTrans := nTrans + 1;
    }

    /** Payload bytes of the current chunk; the caller accounts for those consumed. */
    method HandleChunk(buf: seq<byte>) returns (consumed: int)
      requires Valid() && state.HandleChunk? && |buf| <= remain
      modifies this, palette, trans
      ensures palette == old(palette) && trans == old(trans)
      ensures Handled(step, old(Abs()), Abs(), buf, consumed)
    {
      ghost var p := Abs();
      hide Handled, Fits, Parse;
      if |buf| < PayloadUnit(p) || remain == 0 { HandledNothing(step, p, buf); }
      if chunkType == IEND { RoomForUnit(p); }
      if chunkType == IHDR {
        consumed := 13;
        if |buf| < consumed { return 0; }
        HandledIhdr(step, p, buf);
        hdr := ReadHeader(buf[..13]);
        channels := Channels(buf[9]);
        if !HeaderOk(hdr) {
          state := Error;
          return -1;
        }
      } else if chunkType == IDAT {
        if |buf| < 1 { return 0; }
        HandledIdat(step, p, buf);
        var (i, n) := Taking(step, idat, buf);
        if n < |buf| && !step(i, buf[n]).Waits? {
          state := Error;
          return -1;
        }
        idat := i;
        consumed := n;
      } else if chunkType == PLTE {
        consumed := 3;
        if |buf| < consumed { return 0; }
        TakePaletteEntry(buf);
      } else if chunkType == IEND {
        consumed := 0;
      } else if chunkType == tRNS {
        consumed := TransUnit(hdr.colorType);
        if |buf| < consumed { return 0; }
        TakeTransEntry(buf);
      } else if chunkType == gAMA {
        consumed := 4;
        if |buf| < consumed { return 0; }
        HandledUnit(step, p, p.(gamma := Some(ReadU32(buf[..4]))), buf);
        gamma := Some(ReadU32(buf[..4]));
      } else {
        consumed := |buf|;
        if buf != [] { HandledAncillary(step, p, buf); }
      }
    }

    /** A table is kept, or replaced by one just allocated. */
    twostate predicate TablesKept()
      reads this
    {
      && (palette == old(palette) || (palette != null && fresh(palette)))
      && (trans == old(trans) || (trans != null && fresh(trans)))
    }

    method NewPalette()
      modifies this`palette, this`nPalettes
      ensures fresh(palette) && Abs() == old(Abs()).(palette := Some(Zeros(remain)), nPalettes := 0)
    {
      palette := new byte[remain](_ => 0);
      nPalettes := 0;
      assert palette[..] == Zeros(remain);
    }

    method NewTrans()
      modifies this`trans, this`nTrans
      ensures fresh(trans) && Abs() == old(Abs()).(trans := Some(Zeros(remain)), nTrans := 0)
    {
      trans := new byte[remain](_ => 0);
      nTrans := 0;
      assert trans[..] == Zeros(remain);
    }

    /** The header of a chunk has been read: check it and set its tables up. */
    method BeginChunk()
      requires palette == null || palette != trans
      modifies this
      ensures Abs() == PngChunks.BeginChunk(old(Abs()))
      ensures TablesKept() && (palette == null || palette != trans)
    {
      if chunkType == IHDR {
        if remain != 13 || channels != 0 { state := Error; }
      } else if chunkType == IDAT {
        if remain == 0 || channels == 0 || (hdr.colorType == 3 && palette == null) {
          state := Error;
        } else {
          idatSeen := true;
        }
      } else if chunkType == PLTE {
        if remain == 0 || channels == 0 || palette != null || !(hdr.colorType == 3 || IsRgb(hdr.colorType))
           || remain % 3 != 0 || remain / 3 > PaletteLimit(hdr.depth) {
          state := Error;
        } else {
          NewPalette();
        }
      } else if chunkType == IEND {
        if !idatSeen || remain > 0 { state := Error; }
      } else if chunkType == tRNS {
        if remain == 0 || channels == 0 || trans != null || !TransSizeOk(hdr, remain) {
          state := Error;
        } else {
          NewTrans();
        }
      }
    }

    /** One move of the parser: at most one unit, or all the payload on offer. */
    method FeedInternal(buf: seq<byte>) returns (r: int)
      requires Valid() && buf != []
      modifies this, palette, trans
      ensures Valid() && TablesKept() && Moved(step, old(Abs()), Abs(), buf, r)
    {
      ghost var p := Abs();
      MovedAtEnd(step, p, buf);
      if !state.HandleChunk? && !state.Error? { MovedUnit(step, p, buf); }
      hide Fits, Parse, Moved, Crc, ReadU32;
      match state
      case Error => return -1;
      case Eof => return |buf|;
      case Initial =>
        if |buf| < 8 { return 0; }
        if buf[..8] != Signature { state := Error; return -1; }
        state := FindChunkHeader;
        return 8;
      case FindChunkHeader =>
        if |buf| < 8 { return 0; }
        r := ChunkHeader(buf[..8]);
      case HandleChunk =>
        r := Payload(buf);
      case CheckCrc =>
        if |buf| < 4 { return 0; }
        if ReadU32(buf[..4]) != crc as nat { state := Error; return -1; }
        state := if chunkType == IEND then Eof else FindChunkHeader;
        return 4;
    }

    method ChunkHeader(b: seq<byte>) returns (r: int)
      requires Valid() && state.FindChunkHeader? && |b| == 8
      modifies this
      ensures TablesKept() && Abs() == Unit(step, old(Abs()), b) && r == if state.Error? then -1 else 8
      ensures palette == null || palette != trans
    {
      hide Crc, ReadU32, PngChunks.BeginChunk;
      remain := ReadU32(b[..4]);
      chunkType := ReadU32(b[4..]);
      crc := Crc(0, b[4..]);
      state := State.HandleChunk;
      BeginChunk();
      r := if state.Error? then -1 else 8;
    }

    /** Offer the chunk at hand no more than its remaining payload, and count what it takes. */
    method Payload(buf: seq<byte>) returns (r: int)
      requires Valid() && buf != [] && state.HandleChunk?
      modifies this, palette, trans
      ensures Valid() && TablesKept() && Moved(step, old(Abs()), Abs(), buf, r)
    {
      ghost var p := Abs();
      hide Fits, Handled, Moved;
      var len := Min(|buf|, remain);
      r := HandleChunk(buf[..len]);
      Counted(step, p, Abs(), buf, r);
      if r > 0 {
        remain := remain - r;
        crc := Crc(crc, buf[..r]);
      }
      if remain == 0 { state := CheckCrc; }
    }

    /** pngle_feed: the bytes taken, or -1; always what the reference parser does. */
    method Feed(buf: seq<byte>) returns (r: int)
      requires Valid()
      modifies this, palette, trans
      ensures Valid() && TablesKept() && Fed(step, old(Abs()), Abs(), buf, r)
    {
      var pos := 0;
      var last := state;
      ghost var start := Abs();
      hide Moved, Reached, Fits, Parse;
      ReachedStart(step, start, buf);
      while pos < |buf|
        invariant 0 <= pos <= |buf| && Valid() && TablesKept() && last == state
        invariant Reached(step, start, Abs(), buf, pos) && (pos == 0 || !state.Error?)
        decreases |buf| - pos, if state.HandleChunk? then 1 else 0
      {
        ghost var p := Abs();
        r := FeedInternal(buf[pos..]);
        ReachedNext(step, start, p, Abs(), buf, pos, r);
        if r < 0 { return; }
        if r == 0 && last == state { return pos; }
        last := state;
        pos := pos + r;
      }
      ReachedEnd(step, start, Abs(), buf);
      return pos;
    }
  }

  const BufSize: nat := 1024

  datatype Outcome = Finished | BufferExceeded | DecodeError

  /** PNGTest's loop: a fixed buffer, topped up from the file behind the bytes carried over. */
  method DecodeFile<I>(p: Pngle<I>, file: seq<byte>) returns (out: Outcome)
    requires p.Valid() && p.state.Initial?
    modifies p, p.palette, p.trans
    ensures p.Valid()
    ensures out.DecodeError? <==> Parse(p.step, old(p.Abs()), file).0.state.Error?
    ensures out.BufferExceeded? <==> !out.DecodeError? && |Parse(p.step, old(p.Abs()), file).1| >= BufSize
    ensures out.DecodeError? ==> p.state.Error?
    ensures !out.DecodeError? ==> Parse(p.step, old(p.Abs()), file).0 == p.Abs()
    ensures out.BufferExceeded? ==> Stalled(p.step, p.Abs(), Parse(p.step, old(p.Abs()), file).1)
  {
    var buf: seq<byte>, at, eof := [], 0, false;
    ghost var start := p.Abs();
    assert ReadTo(p.step, start, start, file, 0, []);
    hide Fits, Parse, Stalled, Fed, ReadTo;
    while !eof
      invariant p.Valid() && p.TablesKept() && 0 <= at <= |file| && |buf| <= BufSize
      invariant eof ==> at == |file| && |buf| < BufSize
      invariant ReadTo(p.step, start, p.Abs(), file, at, buf)
      decreases |file| - at, if eof then 0 else 1
    {
      if |buf| >= BufSize {
        OnlyStalledFills(p.step, start, p.Abs(), file, at, buf);
        return BufferExceeded;
      }
      var len := Min(BufSize - |buf|, |file| - at);
      eof := BufSize - |buf| > |file| - at;
      if len == 0 { break; }
      var more := file[at..at + len];
      ghost var q := p.Abs();
      var fed := p.Feed(buf + more);
      ReadOn(p.step, start, q, p.Abs(), file, at, buf, more, fed);
      if fed < 0 { return DecodeError; }
      buf := (buf + more)[fed..];
      at := at + len;
    }
    ReadAll(p.step, start, p.Abs(), file, buf);
    return Finished;
  }
}
