/**
 * The whole way from a file to its pixels: the window between inflate and the
 * scanline decoder, and the two classes run one behind the other.
 */
module PngDraw {
  import opened Basics
  import opened PngFormat
  import opened PngColors
  import opened PngScan
  import opened PngRoundTrip
  import opened PngPartial
  import opened PngChunks
  import opened PngFeed
  import opened PngFile
  import opened PngStall
  import opened PngImage
  import opened PngDecoder

  // ----- inflating through the window -----

  /** What inflate makes of one compressed byte; done is its report that the stream is complete. */
  datatype Burst<Z> = Burst(z: Z, out: seq<byte>, done: bool)

  /** None is a broken stream. */
  type Inflate<!Z> = (Z, byte) -> Option<Burst<Z>>

  /** The state behind IDAT: inflate's own, the bytes waiting in the window, and those handed to the scanlines. */
  datatype Sink<Z> = Sink(z: Z, window: seq<byte>, done: bool, flushed: seq<byte>)

  const WindowSize: nat := 32768

  function Open<Z>(z: Z): Sink<Z> { Sink(z, [], false, []) }

  /** The window is handed on each time it is full, and as it is when inflate is done. */
  function Flush<Z>(i: Sink<Z>, r: Burst<Z>): Sink<Z> {
    var all := i.window + r.out;
    var k := if r.done then |all| else Whole(|all|);
    Sink(r.z, all[k..], r.done, i.flushed + all[..k])
  }

  /** The full windows among n bytes. */
  function Whole(n: nat): (k: nat)
    ensures k <= n
  {
    n / WindowSize * WindowSize
  }

  function IntoWindow<Z>(inflate: Inflate<Z>): IdatStep<Sink<Z>> {
    (i: Sink<Z>, b: byte) =>
      if i.done then Waits
      else match inflate(i.z, b)
        case None => Broken
        case Some(r) => Taken.Took(Flush(i, r))
  }

  /** What a stream inflates to, whether it is complete, and how many of the bytes on offer belong to it. */
  datatype Inflation = Inflation(out: seq<byte>, done: bool, used: nat)

  function Inflated<Z>(inflate: Inflate<Z>, z: Z, s: seq<byte>): Option<Inflation>
    decreases |s|
  {
    if s == [] then Some(Inflation([], false, 0))
    else match inflate(z, s[0])
      case None => None
      case Some(r) =>
        if r.done then Some(Inflation(r.out, true, 1))
        else match Inflated(inflate, r.z, s[1..])
          case None => None
          case Some(t) => Some(Inflation(r.out + t.out, t.done, t.used + 1))
  }

  /** What the scanlines get to see of a stream's bytes. */
  function Reaching(out: seq<byte>, done: bool): seq<byte> { if done then out else out[..Whole(|out|)] }

  /** Handing on what fills the window now, and later the rest, is handing on from all of it. */
  lemma FlushTwice(a: seq<byte>, b: seq<byte>, done: bool)
    ensures Reaching(a + b, done) == a[..Whole(|a|)] + Reaching(a[Whole(|a|)..] + b, done)
  {
    var k := Whole(|a|);
    assert a[..k] + (a[k..] + b) == a + b;
    assert Whole(|a + b|) == k + Whole(|a[k..] + b|);
  }

  /** One flush and what comes after it hand on what was due. */
  lemma FlushKeeps<Z>(i: Sink<Z>, r: Burst<Z>, out: seq<byte>, done: bool)
    requires !r.done
    ensures var j := Flush(i, r);
            !j.done && j.z == r.z && |j.window| < WindowSize
            && j.flushed + Reaching(j.window + out, done) == i.flushed + Reaching(i.window + (r.out + out), done)
  {
    hide Whole, Reaching;
    var all := i.window + r.out;
    WholeLeavesLess(|all|);
    FlushTwice(all, out, done);
    assert i.window + (r.out + out) == all + out;
  }

  /** A complete stream reaches the scanlines in full, an incomplete one only in full windows; bytes behind a
      complete one are not taken. */
  lemma {:induction false} FlushRule<Z>(inflate: Inflate<Z>, i: Sink<Z>, s: seq<byte>)
    requires !i.done && |i.window| < WindowSize && Inflated(inflate, i.z, s).Some?
    ensures var t, r := Inflated(inflate, i.z, s).value, Taking(IntoWindow(inflate), i, s);
            && r.0.flushed == i.flushed + Reaching(i.window + t.out, t.done) && r.0.done == t.done
            && r.1 == t.used <= |s| && (t.used < |s| ==> t.done)
    decreases |s|
  {
    hide Whole;
    if s == [] {
      WholeOfLess(|i.window|);
      assert i.window + [] == i.window;
    } else {
      var r := inflate(i.z, s[0]).value;
      var j := Flush(i, r);
      if r.done {
        DoneTakesNothing(inflate, j, s[1..]);
        assert i.flushed + (i.window + r.out) == j.flushed;
      } else {
        hide Flush, Reaching;
        var t := Inflated(inflate, r.z, s[1..]).value;
        FlushKeeps(i, r, t.out, t.done);
        FlushRule(inflate, j, s[1..]);
      }
    }
  }

  lemma DoneTakesNothing<Z>(inflate: Inflate<Z>, i: Sink<Z>, s: seq<byte>)
    requires i.done
    ensures Taking(IntoWindow(inflate), i, s) == (i, 0)
  {
  }

  /** What stalls and what fails, told by the stream alone: bytes behind its end, and a broken stream. */
  lemma {:induction false} StreamIff<Z>(inflate: Inflate<Z>, i: Sink<Z>, s: seq<byte>)
    requires !i.done
    ensures var f, t := IntoWindow(inflate), Inflated(inflate, i.z, s);
            (Overrun(f, i, s) <==> t.Some? && t.value.used < |s|) && (Fair(f, i, s) <==> t.Some?)
    ensures Inflated(inflate, i.z, s).Some? ==> Inflated(inflate, i.z, s).value.used <= |s|
    decreases |s|
  {
    hide Flush;
    if s != [] && inflate(i.z, s[0]).Some? {
      var j := Flush(i, inflate(i.z, s[0]).value);
      FlushKeepsState(i, inflate(i.z, s[0]).value);
      if j.done {
        DoneTakesNothing(inflate, j, s[1..]);
      } else {
        StreamIff(inflate, j, s[1..]);
      }
    }
  }

  /** The files that stall, told from the file: by a gAMA chunk's length, or by where the stream of its IDAT
      payloads is complete. */
  lemma PngStallsIff<Z>(inflate: Inflate<Z>, z: Z, cs: seq<Chunk>)
    requires Encodables(cs) && SoundAll(IntoWindow(inflate), AfterSignature(Open(z)), cs)
    ensures Fits(Start(Open(z)))
    ensures var r, u := Parse(IntoWindow(inflate), Start(Open(z)), Signature + EncodeAll(cs)), IdatData(cs);
            Stalled(IntoWindow(inflate), r.0, r.1)
            <==> (exists c :: c in cs && BadGamma(c))
                 || (Inflated(inflate, z, u).Some? && Inflated(inflate, z, u).value.used < |u|)
  {
    hide Parse, SoundAll, EncodeAll, BadGamma, Encodable, Overrun, Fair, Inflated, IntoWindow, Stalled;
    FileStallsIff(IntoWindow(inflate), Open(z), cs);
    StreamIff(inflate, Open(z), IdatData(cs));
  }

  lemma FlushKeepsState<Z>(i: Sink<Z>, r: Burst<Z>)
    ensures Flush(i, r).z == r.z && Flush(i, r).done == r.done
  {
  }

  lemma WholeOfLess(n: nat)
    requires n < WindowSize
    ensures Whole(n) == 0
  {
  }

  lemma WholeLeavesLess(n: nat)
    ensures n - Whole(n) < WindowSize
  {
  }

  // ----- the file of an image -----

  /** The display's gamma curve: what a sample out of a maximum is shown as, for the value of the gAMA chunk. */
  type Curve = (nat, nat, nat) -> byte

  /** The table set up for a gAMA chunk; a value of 0 sets none up. */
  function GammaTable(curve: Curve, gamma: Option<nat>, max: nat): seq<byte> {
    if gamma.None? || gamma.value == 0 then [] else seq(max + 1, (v: nat) => curve(gamma.value, v, max))
  }

  /** The table has an entry for every sample value, and its entries are the curve's. */
  lemma GammaTableFits(curve: Curve, gamma: Option<nat>, max: nat)
    ensures var t := GammaTable(curve, gamma, max);
            && (t != [] <==> gamma.Some? && gamma.value > 0)
            && (t != [] ==> |t| == max + 1 && forall v: nat | v <= max :: t[v] == curve(gamma.value, v, max))
  {
  }

  function ColorsOf(h: Header, t: Tables, curve: Curve): Colors
    requires LegalHeader(h)
  {
    Colors(|t.plte| / 3, t.plte, |t.trns| / TransUnit(h.colorType), t.trns,
           GammaTable(curve, GammaIn(t.gama), PixelMax(h)))
  }

  /** Any stream, complete or not: the file is read without an error, to its end unless bytes follow a complete
      stream, and what has been handed to the scanlines by then is what the flush rule says. */
  lemma FileReachesScanlines<Z>(inflate: Inflate<Z>, z: Z, h: Header, t: Tables, pieces: seq<seq<byte>>,
                                cs: seq<Chunk>, calls: seq<seq<byte>>)
    requires ImageHeader(h) && FileOf(h, t, pieces, cs, calls) && Inflated(inflate, z, Flatten(pieces)).Some?
    ensures Fits(Start(Open(z))) && SoundAll(IntoWindow(inflate), AfterSignature(Open(z)), cs)
    ensures var r := CallByCall(IntoWindow(inflate), Start(Open(z)), [], calls);
            var u := Inflated(inflate, z, Flatten(pieces)).value;
            && HasTables(r.0, h, t) && r.0.idat.flushed == Reaching(u.out, u.done)
            && if u.used < |Flatten(pieces)| then Stalled(IntoWindow(inflate), r.0, r.1)
            else r.0.state.Eof? && r.1 == []
  {
    hide Taking, Inflated, EncodeAll, Relevant, ImageChunks, Fits, CallByCall, Flatten, TablesFor, Pieces, ImageHeader;
    hide IntoWindow, Whole, SoundAll, Stalled, Overrun, Fair, FileOf, HasTables;
    FlushRule(inflate, Open(z), Flatten(pieces));
    StreamIff(inflate, Open(z), Flatten(pieces));
    FileReadInAnyCalls(IntoWindow(inflate), Open(z), h, t, pieces, cs, calls);
    var out := Inflated(inflate, z, Flatten(pieces)).value.out;
    assert [] + out == out;
  }

  /** The stream inflates to the image's scanlines, with anything behind them, or to a first part of them. */
  ghost predicate Carries<Z>(inflate: Inflate<Z>, z: Z, s: seq<byte>, h: Header, img: Image, filters: Filters)
    requires LegalHeader(h) && ImageFor(h, img)
  {
    && Inflated(inflate, z, s).Some?
    && var out, lines := Inflated(inflate, z, s).value.out, Serialise(h, img, filters);
       lines <= out || out <= lines
  }

  /** The window lets n bytes through: the stream is complete, or whole windows cover them. */
  predicate LetsThrough(n: nat, u: Inflation) { n <= if u.done then |u.out| else Whole(|u.out|) }

  /** A PNG file, with its tables, any unknown chunks and its payload cut anywhere, fed in any calls, is read
      without an error. The bytes then handed to the scanlines draw every pixel of the image exactly once, with
      its own colour, exactly when the window has let all of its scanlines through; and the end of the file is
      reached exactly when no bytes follow a complete stream. */
  lemma FileDrawsImage<Z>(inflate: Inflate<Z>, z: Z, curve: Curve, h: Header, t: Tables, img: Image, filters: Filters,
                          pieces: seq<seq<byte>>, cs: seq<Chunk>, calls: seq<seq<byte>>)
    requires ImageHeader(h) && FileOf(h, t, pieces, cs, calls)
    requires Decodable(h, ColorsOf(h, t, curve), img) && Carries(inflate, z, Flatten(pieces), h, img, filters)
    ensures var colors := ColorsOf(h, t, curve);
            Fits(Start(Open(z)))
            && var r := CallByCall(IntoWindow(inflate), Start(Open(z)), [], calls);
               var u := Inflated(inflate, z, Flatten(pieces)).value;
               && HasTables(r.0, h, t)
               && (Drawn(h, colors, img, Run(h, PainterOf(h, colors), Init(h), r.0.idat.flushed))
                   <==> LetsThrough(|Serialise(h, img, filters)|, u))
               && (if u.used < |Flatten(pieces)| then Stalled(IntoWindow(inflate), r.0, r.1)
                   else r.0.state.Eof? && r.1 == [])
  {
    hide FileOf, Inflated, Serialise, Fits, CallByCall, Flatten, Drawn, ImageHeader, HasTables, Stalled, SoundAll;
    hide ImageFor, IndicesFit, LegalHeader, ColorsFit, IntoWindow, PainterOf, Init, Run, Whole, ColorsOf;
    FileReachesScanlines(inflate, z, h, t, pieces, cs, calls);
    var u := Inflated(inflate, z, Flatten(pieces)).value;
    var lines, seen := Serialise(h, img, filters), Reaching(u.out, u.done);
    PrefixCut(lines, u.out, |seen|);
    DrawnIffWhole(h, ColorsOf(h, t, curve), img, filters, seen);
  }

  lemma PrefixCut(a: seq<byte>, s: seq<byte>, k: nat)
    requires (a <= s || s <= a) && k <= |s|
    ensures a <= s[..k] || s[..k] <= a
    ensures a <= s[..k] <==> |a| <= k
    ensures s[..|s|] == s
  {
  }

  /** Bytes behind a complete stream: the image is drawn in full, but the end of the file is never reached,
      whatever further calls bring. */
  lemma TrailingBytesDraw<Z>(inflate: Inflate<Z>, z: Z, curve: Curve, h: Header, t: Tables, img: Image,
                             filters: Filters, pieces: seq<seq<byte>>, cs: seq<Chunk>, calls: seq<seq<byte>>,
                             more: seq<seq<byte>>)
    requires ImageHeader(h) && FileOf(h, t, pieces, cs, calls)
    requires Decodable(h, ColorsOf(h, t, curve), img) && Inflated(inflate, z, Flatten(pieces)).Some?
    requires var u := Inflated(inflate, z, Flatten(pieces)).value;
             u.used < |Flatten(pieces)| && Serialise(h, img, filters) <= u.out
    ensures var colors := ColorsOf(h, t, curve);
            Fits(Start(Open(z)))
            && var r := CallByCall(IntoWindow(inflate), Start(Open(z)), [], calls);
               && Drawn(h, colors, img, Run(h, PainterOf(h, colors), Init(h), r.0.idat.flushed))
               && !r.0.state.Error? && !r.0.state.Eof?
               && CallByCall(IntoWindow(inflate), r.0, r.1, more) == (r.0, r.1 + Flatten(more))
  {
    hide FileOf, Inflated, Serialise, Fits, CallByCall, Flatten, Drawn, ImageHeader, HasTables, SoundAll;
    hide ImageFor, IndicesFit, LegalHeader, ColorsFit, IntoWindow, PainterOf, Init, Run, Whole, ColorsOf;
    FlushRule(inflate, Open(z), Flatten(pieces));
    FileDrawsImage(inflate, z, curve, h, t, img, filters, pieces, cs, calls);
    var r := CallByCall(IntoWindow(inflate), Start(Open(z)), [], calls);
    StalledTakesNothing(IntoWindow(inflate), r.0, more, r.1);
  }

  /** An incomplete stream of less than a window: nothing is drawn, even if every byte was there. */
  lemma IncompleteDrawsNothing<Z>(inflate: Inflate<Z>, z: Z, h: Header, t: Tables, pieces: seq<seq<byte>>,
                                  cs: seq<Chunk>, calls: seq<seq<byte>>)
    requires ImageHeader(h) && FileOf(h, t, pieces, cs, calls) && Inflated(inflate, z, Flatten(pieces)).Some?
    requires var u := Inflated(inflate, z, Flatten(pieces)).value; !u.done && |u.out| < WindowSize
    ensures Fits(Start(Open(z)))
    ensures var p := CallByCall(IntoWindow(inflate), Start(Open(z)), [], calls).0; p.state.Eof? && p.idat.flushed == []
  {
    hide FileOf, Inflated, Fits, CallByCall, Flatten, IntoWindow, ImageHeader, HasTables, SoundAll;
    FlushRule(inflate, Open(z), Flatten(pieces));
    FileReachesScanlines(inflate, z, h, t, pieces, cs, calls);
  }

  // ----- every image has such a file -----

  /** An inflater for bytes that were not compressed: z of them, the last of which only ends the stream. */
  function Verbatim(z: int, b: byte): Option<Burst<int>> {
    Some(Burst(z - 1, if z > 1 then [b] else [], z <= 1))
  }

  lemma {:induction false} VerbatimInflates(s: seq<byte>, last: byte)
    ensures Inflated(Verbatim, |s| + 1, s + [last]) == Some(Inflation(s, true, |s| + 1))
    decreases |s|
  {
    if s != [] {
      var t := s + [last];
      VerbatimInflates(s[1..], last);
      assert t[0] == s[0] && t[1..] == s[1..] + [last] && [s[0]] + s[1..] == s;
    }
  }

  /** The encoder's side: with nothing compressed, the chunks of any decodable image make a file that draws it. */
  lemma EveryImageHasAFile(curve: Curve, h: Header, t: Tables, img: Image, filters: Filters, pieces: seq<seq<byte>>)
    requires ImageHeader(h) && TablesFor(h, t) && Decodable(h, ColorsOf(h, t, curve), img)
    requires pieces != [] && Pieces(pieces) && Flatten(pieces) == Serialise(h, img, filters) + [0]
    ensures var cs, colors := ImageChunks(h, t, pieces), ColorsOf(h, t, curve);
            var start := Start(Open(|Flatten(pieces)| as int));
            Encodables(cs) && Fits(start)
            && var r := CallByCall(IntoWindow(Verbatim), start, [], [Signature + EncodeAll(cs)]);
               && r.0.state.Eof? && HasTables(r.0, h, t)
               && Drawn(h, colors, img, Run(h, PainterOf(h, colors), Init(h), r.0.idat.flushed))
  {
    hide Inflated, Serialise, EncodeAll, Relevant, ImageChunks, Fits, CallByCall, Drawn, TablesFor, Pieces;
    hide ImageHeader, HasTables, Encodable, Stalled;
    hide ImageFor, IndicesFit, LegalHeader, ColorsFit, IntoWindow, PainterOf, Init, Run, ColorsOf;
    var cs := ImageChunks(h, t, pieces);
    var z: int := |Flatten(pieces)|;
    ImageChunksKnown(h, t, pieces);
    VerbatimInflates(Serialise(h, img, filters), 0);
    assert Flatten([Signature + EncodeAll(cs)]) == Signature + EncodeAll(cs);
    FileDrawsImage(Verbatim, z, curve, h, t, img, filters, pieces, cs, [Signature + EncodeAll(cs)]);
  }

  // ----- the two classes, one behind the other -----

  lemma {:induction false} ErrorThroughCalls<I>(f: IdatStep<I>, p: Parser<I>, carry: seq<byte>, calls: seq<seq<byte>>)
    requires Fits(p) && p.state.Error?
    ensures CallByCall(f, p, carry, calls).0.state.Error?
    decreases |calls|
  {
    hide Fits;
    if calls != [] {
      ErrorThroughCalls(f, p, carry + calls[0], calls[1..]);
    }
  }

  /** The caller's calls, each with what the one before left over in front. */
  method FeedCalls<I>(png: Pngle<I>, calls: seq<seq<byte>>) returns (ok: bool, carry: seq<byte>)
    requires png.Valid() && !png.state.Error?
    modifies png, png.palette, png.trans
    ensures png.Valid() && png.TablesKept()
    ensures ok <==> !CallByCall(png.step, old(png.Abs()), [], calls).0.state.Error?
    ensures ok ==> CallByCall(png.step, old(png.Abs()), [], calls) == (png.Abs(), carry)
  {
    hide Fits, Parse, CallByCall;
    ghost var goal := CallByCall(png.step, png.Abs(), [], calls);
    carry := [];
    assert calls[0..] == calls;
    for k := 0 to |calls|
      invariant png.Valid() && png.TablesKept() && !png.state.Error?
      invariant CallByCall(png.step, png.Abs(), carry, calls[k..]) == goal
    {
      ghost var p := png.Abs();
      var buf := carry + calls[k];
      OneCallOn(png.step, p, carry, calls, k);
      var r := png.Feed(buf);
      if r < 0 { return false, carry; }
      carry := buf[r..];
      assert !png.state.Error? by { FedGoesOn(png.step, p, png.Abs(), buf, r); }
    }
    assert calls[|calls|..] == [];
    NoCalls(png.step, png.Abs(), carry);
    return true, carry;
  }

  lemma OneCallOn<I>(f: IdatStep<I>, p: Parser<I>, carry: seq<byte>, calls: seq<seq<byte>>, k: nat)
    requires Fits(p) && k < |calls|
    ensures var r := Parse(f, p, carry + calls[k]);
            CallByCall(f, p, carry, calls[k..]) == CallByCall(f, r.0, r.1, calls[k + 1..])
            && (r.0.state.Error? ==> CallByCall(f, p, carry, calls[k..]).0.state.Error?)
  {
    hide Fits, Parse;
    var r := Parse(f, p, carry + calls[k]);
    assert calls[k..][1..] == calls[k + 1..];
    if r.0.state.Error? { ErrorThroughCalls(f, r.0, r.1, calls[k + 1..]); }
  }

  lemma NoCalls<I>(f: IdatStep<I>, p: Parser<I>, carry: seq<byte>)
    requires Fits(p)
    ensures CallByCall(f, p, carry, []) == (p, carry)
  {
  }

  lemma FedGoesOn<I>(f: IdatStep<I>, p: Parser<I>, q: Parser<I>, buf: seq<byte>, r: int)
    requires Fits(p) && !p.state.Error? && Fed(f, p, q, buf, r) && r >= 0
    ensures !q.state.Error?
  {
    hide Fits;
    if buf == [] { ParseNone(f, p); }
  }

  /** Hand inflated bytes to the scanline decoder, a window at a time, until one fails. */
  method DrawWindows(dec: Decoder, data: seq<byte>)
    requires dec.Valid() && !dec.error
    modifies dec, dec.ring
    ensures dec.Valid() && (dec.ring == old(dec.ring) || fresh(dec.ring))
    ensures dec.hdr.width > 0 ==>
      dec.Abs() == Run(dec.hdr, PainterOf(dec.hdr, dec.colors), old(dec.Abs()), data)
    ensures dec.hdr.width == 0 ==> !dec.error && dec.draws == old(dec.draws)
  {
    hide Run, PainterOf, LegalHeader;
    ghost var paint := PainterOf(dec.hdr, dec.colors);
    var at := 0;
    assert data[0..] == data;
    while at < |data|
      invariant 0 <= at <= |data| && dec.Valid() && !dec.error && (dec.ring == old(dec.ring) || fresh(dec.ring))
      invariant dec.hdr.width > 0 ==>
        Run(dec.hdr, paint, dec.Abs(), data[at..]) == Run(dec.hdr, paint, old(dec.Abs()), data)
      invariant dec.hdr.width == 0 ==> dec.draws == old(dec.draws)
    {
      var n := Min(WindowSize, |data| - at);
      var window := data[at..at + n];
      assert data[at..] == window + data[at + n..];
      RunConcat(dec.hdr, paint, dec.Abs(), window, data[at + n..]);
      var r := dec.OnData(window);
      if r < 0 {
        FailedStays(dec.hdr, paint, dec.Abs(), data[at + n..]);
        return;
      }
      at := at + n;
    }
    assert data[|data|..] == [];
    RunNothing(dec.hdr, paint, dec.Abs());
  }

  lemma {:induction false} NoBytes(h: Header, rows: Rows, filters: Filters, p: Pass)
    requires h.width == 0
    ensures Stream(h, rows, filters, p) == []
    decreases 7 - p
  {
    if p != 0 && p != 7 { NoBytes(h, rows, filters, p + 1); }
  }

  lemma NoColumns(h: Header, colors: Colors, img: Image, filters: Filters, s: Scan)
    requires Decodable(h, colors, img) && h.width == 0 && s.draws == [] && !s.failed
    ensures Drawn(h, colors, img, s) && Serialise(h, img, filters) == []
  {
    NoBytes(h, RowsOf(h, img), filters, FirstPass(h));
  }

  /** The tables as the parser holds them. */
  function ColorsIn<I>(p: Parser<I>, curve: Curve): Colors
    requires LegalHeader(p.hdr)
  {
    Colors(p.nPalettes, p.palette.GetOr([]), p.nTrans, p.trans.GetOr([]), GammaTable(curve, p.gamma, PixelMax(p.hdr)))
  }

  lemma TablesGiveColors<I>(p: Parser<I>, h: Header, t: Tables, curve: Curve)
    requires HasTables(p, h, t) && LegalHeader(h)
    ensures ColorsIn(p, curve) == ColorsOf(h, t, curve)
  {
    hide LegalHeader, GammaTable, GammaIn;
  }

  /** Set the scanline decoder up from what the parser has read, and hand it the bytes flushed. */
  method DrawFlushed<Z>(png: Pngle<Sink<Z>>, curve: Curve) returns (dec: Decoder)
    requires LegalHeader(png.hdr) && ColorsFit(png.hdr, ColorsIn(png.Abs(), curve))
    ensures fresh(dec) && dec.Valid() && dec.hdr == png.hdr && dec.colors == ColorsIn(png.Abs(), curve)
    ensures dec.hdr.width > 0 ==>
      dec.Abs() == Run(dec.hdr, PainterOf(dec.hdr, dec.colors), Init(dec.hdr), png.idat.flushed)
    ensures dec.hdr.width == 0 ==> !dec.error && dec.draws == []
  {
    var colors := Colors(png.nPalettes, if png.palette == null then [] else png.palette[..],
                         png.nTrans, if png.trans == null then [] else png.trans[..],
                         GammaTable(curve, png.gamma, PixelMax(png.hdr)));
    hide Run, PainterOf, LegalHeader, ColorsFit, Init, GammaTable;
    dec := new Decoder(png.hdr, colors);
    assert dec.Abs().draws == [] by { NothingDrawnYet(dec.hdr); }
    DrawWindows(dec, png.idat.flushed);
  }

  lemma NothingDrawnYet(h: Header)
    ensures Init(h).draws == []
  {
  }

  /** Parser and scanline decoder together: from any calls that bring the file of an image, its pixels. */
  method DrawFile<Z>(inflate: Inflate<Z>, z: Z, curve: Curve, calls: seq<seq<byte>>, ghost h: Header, ghost t: Tables,
                     ghost img: Image, ghost filters: Filters, ghost pieces: seq<seq<byte>>, ghost cs: seq<Chunk>)
    returns (dec: Decoder)
    requires ImageHeader(h) && FileOf(h, t, pieces, cs, calls)
    requires Decodable(h, ColorsOf(h, t, curve), img) && Carries(inflate, z, Flatten(pieces), h, img, filters)
    ensures fresh(dec) && dec.Valid() && dec.hdr == h && dec.colors == ColorsOf(h, t, curve)
    ensures Drawn(h, ColorsOf(h, t, curve), img, dec.Abs())
            <==> LetsThrough(|Serialise(h, img, filters)|, Inflated(inflate, z, Flatten(pieces)).value)
  {
    hide FileOf, Fits, CallByCall, Carries, Drawn, Run, PainterOf, LegalHeader, ImageHeader, Inflated, Init;
    hide Serialise, ColorsFit, ImageFor, IndicesFit, ColorsIn, ColorsOf, IntoWindow, Pngle.Valid, Decoder.Valid;
    FileLeaves(inflate, z, curve, h, t, img, filters, pieces, cs, calls);
    var png := new Pngle(IntoWindow(inflate), Open(z));
    var ok, carry := FeedCalls(png, calls);
    dec := DrawFlushed(png, curve);
    if dec.hdr.width == 0 { NoColumns(h, dec.colors, img, filters, dec.Abs()); }
  }

  /** FileDrawsImage, in the terms of the fields the parser leaves. */
  lemma FileLeaves<Z>(inflate: Inflate<Z>, z: Z, curve: Curve, h: Header, t: Tables, img: Image, filters: Filters,
                      pieces: seq<seq<byte>>, cs: seq<Chunk>, calls: seq<seq<byte>>)
    requires ImageHeader(h) && FileOf(h, t, pieces, cs, calls)
    requires Decodable(h, ColorsOf(h, t, curve), img) && Carries(inflate, z, Flatten(pieces), h, img, filters)
    ensures Fits(Start(Open(z)))
    ensures var p := CallByCall(IntoWindow(inflate), Start(Open(z)), [], calls).0;
            && !p.state.Error? && p.hdr == h && ColorsIn(p, curve) == ColorsOf(h, t, curve)
            && (Drawn(h, ColorsIn(p, curve), img, Run(h, PainterOf(h, ColorsIn(p, curve)), Init(h), p.idat.flushed))
                <==> LetsThrough(|Serialise(h, img, filters)|, Inflated(inflate, z, Flatten(pieces)).value))
  {
    hide FileOf, Fits, CallByCall, Carries, Drawn, Run, PainterOf, LegalHeader, ImageHeader, Inflated, Init;
    hide Serialise, ColorsFit, ImageFor, IndicesFit, ColorsIn, ColorsOf, LetsThrough, IntoWindow, Taking;
    FileDrawsImage(inflate, z, curve, h, t, img, filters, pieces, cs, calls);
    TablesGiveColors(CallByCall(IntoWindow(inflate), Start(Open(z)), [], calls).0, h, t, curve);
  }
}
