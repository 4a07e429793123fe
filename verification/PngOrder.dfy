/** Which chunks a file may hold, and in which order, told by the chunks themselves (RFC 2083, section 4.3). */
module PngOrder {
  import opened Basics
  import opened PngFormat
  import opened PngChunks
  import opened PngFile
  import opened PngStall

  predicate Has(cs: seq<Chunk>, chunkType: nat) { exists k :: 0 <= k < |cs| && cs[k].chunkType == chunkType }

  /** The header among these chunks. */
  function HeaderIn(cs: seq<Chunk>): Header {
    if cs == [] then Header(0, 0, 0, 0, 0, 0, 0)
    else
      var c := cs[|cs| - 1];
      if c.chunkType == IHDR && |c.data| == 13 then ReadHeader(c.data) else HeaderIn(cs[..|cs| - 1])
  }

  /** The palette entries a depth can name. */
  function Entries(depth: nat): nat { if depth < 8 then Power(2, depth) else 256 }

  predicate TransSize(h: Header, n: nat) {
    0 < n && match h.colorType case 0 => n == 2 case 2 => n == 6 case 3 => n <= Entries(h.depth) case _ => false
  }

  /** The chunk may stand behind these: one header, before whatever depends on it; at most one palette and one
      transparency table, of sizes the header allows; a palette before indexed pixels; pixels before the end, and
      nothing behind it. */
  predicate MayFollow<I>(f: IdatStep<I>, i: I, before: seq<Chunk>, c: Chunk) {
    var h := HeaderIn(before);
    && Encodable(c) && !Has(before, IEND)
    && (c.chunkType == IHDR ==> !Has(before, IHDR) && |c.data| == 13 && HeaderOk(ReadHeader(c.data)))
    && (c.chunkType == PLTE ==>
          && Has(before, IHDR) && !Has(before, PLTE) && h.colorType in {2, 3, 6}
          && c.data != [] && |c.data| % 3 == 0 && |c.data| / 3 <= Entries(h.depth))
    && (c.chunkType == tRNS ==> Has(before, IHDR) && !Has(before, tRNS) && TransSize(h, |c.data|))
    && (c.chunkType == IDAT ==>
          && Has(before, IHDR) && (h.colorType == 3 ==> Has(before, PLTE))
          && c.data != [] && FoldIdat(f, i, IdatData(before) + c.data).Some?)
    && (c.chunkType == IEND ==> Has(before, IDAT) && c.data == [])
    && (c.chunkType == gAMA ==> |c.data| % 4 == 0)
  }

  /** What the parser's fields remember of the chunks read. */
  ghost predicate Remembers<I>(f: IdatStep<I>, i: I, p: Parser<I>, cs: seq<Chunk>) {
    && p.state == (if Has(cs, IEND) then Eof else FindChunkHeader)
    && (p.channels != 0 <==> Has(cs, IHDR)) && (Has(cs, IHDR) ==> p.hdr == HeaderIn(cs) && HeaderOk(p.hdr))
    && (p.palette.Some? <==> Has(cs, PLTE)) && (p.trans.Some? <==> Has(cs, tRNS)) && (p.idatSeen <==> Has(cs, IDAT))
    && FoldIdat(f, i, IdatData(cs)) == Some(p.idat)
  }

  lemma HasMore(cs: seq<Chunk>, c: Chunk, chunkType: nat)
    ensures Has(cs + [c], chunkType) <==> Has(cs, chunkType) || c.chunkType == chunkType
  {
    if Has(cs, chunkType) {
      var k :| 0 <= k < |cs| && cs[k].chunkType == chunkType;
      assert (cs + [c])[k].chunkType == chunkType;
    }
    assert (cs + [c])[|cs|] == c;
  }

  lemma HeaderMore(cs: seq<Chunk>, c: Chunk)
    ensures HeaderIn(cs + [c]) == if c.chunkType == IHDR && |c.data| == 13 then ReadHeader(c.data) else HeaderIn(cs)
  {
    assert (cs + [c])[..|cs|] == cs;
  }

  lemma {:induction false} DataMore(cs: seq<Chunk>, c: Chunk)
    ensures IdatData(cs + [c]) == IdatData(cs) + if c.chunkType == IDAT then c.data else []
    decreases |cs|
  {
    if cs == [] {
      assert ([] + [c])[1..] == [] && [] + [c] == [c];
    } else {
      assert (cs + [c])[1..] == cs[1..] + [c];
      DataMore(cs[1..], c);
    }
  }

  lemma FoldMore<I>(f: IdatStep<I>, i: I, a: seq<byte>, b: seq<byte>)
    requires FoldIdat(f, i, a).Some?
    ensures FoldIdat(f, i, a + b) == FoldIdat(f, FoldIdat(f, i, a).value, b)
  {
    hide Taking;
    TakingConcat(f, i, a, b);
  }

  /** The parser allows next what the chunks themselves allow. */
  lemma AllowedAsOrdered<I>(f: IdatStep<I>, i: I, p: Parser<I>, cs: seq<Chunk>, c: Chunk)
    requires Remembers(f, i, p, cs)
    ensures p.state.FindChunkHeader? && Allowed(f, p, c) <==> MayFollow(f, i, cs, c)
    ensures MayFollow(f, i, cs, c) ==> Encodable(c)
  {
    hide FoldIdat, Crc, WriteU32, ReadU32, Has, IdatData, HeaderIn;
    FoldMore(f, i, IdatData(cs), c.data);
    PaletteLimitIs(p.hdr.depth);
  }

  lemma StillRemembers<I>(f: IdatStep<I>, i: I, p: Parser<I>, cs: seq<Chunk>, c: Chunk)
    requires Remembers(f, i, p, cs) && p.state.FindChunkHeader? && Allowed(f, p, c)
    ensures Remembers(f, i, Apply(f, p, c), cs + [c])
  {
    hide FoldIdat, Crc, WriteU32, ReadU32, Has, IdatData, HeaderIn;
    HasMore(cs, c, IHDR);
    HasMore(cs, c, PLTE);
    HasMore(cs, c, tRNS);
    HasMore(cs, c, IDAT);
    HasMore(cs, c, IEND);
    HeaderMore(cs, c);
    DataMore(cs, c);
    FoldMore(f, i, IdatData(cs), c.data);
    assert IdatData(cs) + [] == IdatData(cs);
    if c.chunkType == IHDR { HeaderColour(c.data); }
  }

  lemma HeaderColour(b: seq<byte>)
    requires |b| == 13 && HeaderOk(ReadHeader(b))
    ensures Channels(b[9]) != 0
  {
  }

  /** Each of the chunks may follow those before it. */
  predicate Ordered<I>(f: IdatStep<I>, i: I, before: seq<Chunk>, cs: seq<Chunk>) {
    forall k | 0 <= k < |cs| :: MayFollow(f, i, before + cs[..k], cs[k])
  }

  lemma OrderedOne<I>(f: IdatStep<I>, i: I, before: seq<Chunk>, cs: seq<Chunk>)
    requires cs != []
    ensures Ordered(f, i, before, cs) <==> MayFollow(f, i, before, cs[0]) && Ordered(f, i, before + [cs[0]], cs[1..])
  {
    hide MayFollow;
    assert before + cs[..0] == before;
    forall k: nat | k < |cs| - 1
      ensures before + [cs[0]] + cs[1..][..k] == before + cs[..k + 1] && cs[1..][k] == cs[k + 1]
    {
      assert [cs[0]] + cs[1..][..k] == cs[..k + 1];
    }
    if MayFollow(f, i, before, cs[0]) && Ordered(f, i, before + [cs[0]], cs[1..]) {
      forall k | 0 <= k < |cs| ensures MayFollow(f, i, before + cs[..k], cs[k]) {
        if k > 0 { assert MayFollow(f, i, before + [cs[0]] + cs[1..][..k - 1], cs[1..][k - 1]); }
      }
    }
    if Ordered(f, i, before, cs) {
      forall k | 0 <= k < |cs| - 1 ensures MayFollow(f, i, before + [cs[0]] + cs[1..][..k], cs[1..][k]) {
        assert MayFollow(f, i, before + cs[..k + 1], cs[k + 1]);
      }
      assert MayFollow(f, i, before + cs[..0], cs[0]);
    }
  }

  lemma {:induction false} AllowedIffOrdered<I>(f: IdatStep<I>, i: I, p: Parser<I>, before: seq<Chunk>, cs: seq<Chunk>)
    requires Remembers(f, i, p, before)
    ensures AllowedAll(f, p, cs) <==> Ordered(f, i, before, cs)
    decreases |cs|
  {
    hide Remembers, MayFollow, Allowed, Apply, Ordered;
    if cs == [] {
      assert Ordered(f, i, before, []) by { NothingOrdered(f, i, before); }
    } else {
      OrderedOne(f, i, before, cs);
      AllowedAsOrdered(f, i, p, before, cs[0]);
      if p.state.FindChunkHeader? && Allowed(f, p, cs[0]) {
        StillRemembers(f, i, p, before, cs[0]);
        AllowedIffOrdered(f, i, Apply(f, p, cs[0]), before + [cs[0]], cs[1..]);
      }
    }
  }

  lemma NothingOrdered<I>(f: IdatStep<I>, i: I, before: seq<Chunk>)
    ensures Ordered(f, i, before, [])
  {
  }

  /** The parser accepts the chunks of a file, one after another, exactly when each may follow those before it. */
  lemma AcceptedIffOrdered<I>(f: IdatStep<I>, i: I, cs: seq<Chunk>)
    ensures AllowedAll(f, AfterSignature(i), cs) <==> Ordered(f, i, [], cs)
  {
    AllowedIffOrdered(f, i, AfterSignature(i), [], cs);
  }
}
