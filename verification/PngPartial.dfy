/** How much of an image's bytes draws the image: all of them, and never less. */
module PngPartial {
  import opened Basics
  import opened PngFormat
  import opened PngColors
  import opened PngScan
  import opened PngRoundTrip

  /** Nothing failed, every draw shows its pixel's colour, and every pixel was drawn exactly once. */
  ghost predicate Drawn(h: Header, colors: Colors, img: Image, s: Scan)
    requires LegalHeader(h) && ColorsFit(h, colors)
  {
    && !s.failed && TrueDraws(h, colors, img, s.draws)
    && forall x: nat, y: nat :: CountAt(s.draws, x, y) == One(x < h.width && y < h.height)
  }

  /** The scanlines of an image, and anything behind them, draw it. */
  lemma ScanlinesDraw(h: Header, colors: Colors, img: Image, filters: Filters, extra: seq<byte>)
    requires Decodable(h, colors, img)
    ensures Drawn(h, colors, img, Run(h, PainterOf(h, colors), Init(h), Serialise(h, img, filters) + extra))
  {
    hide Run, RunAll, Serialise, CountAt, TrueDraws, Flatten;
    var data := Serialise(h, img, filters) + extra;
    OneCall(h, PainterOf(h, colors), data);
    EveryPixelOnce(h, colors, img, filters, [data], extra);
  }

  lemma OneCall(h: Header, paint: Painter, data: seq<byte>)
    requires LegalHeader(h)
    ensures Flatten([data]) == data && RunAll(h, paint, Init(h), [data]) == Run(h, paint, Init(h), data)
  {
    assert [data][1..] == [];
  }

  // ----- draws are only ever added -----

  lemma {:induction false} DrawFromGrows(h: Header, paint: Painter, s: Scan, group: seq<byte>, k: nat)
    requires LegalHeader(h) && |group| == Bpp(h)
    ensures s.draws <= DrawFrom(h, paint, s, group, k).draws
    decreases GroupPixels(h) - k
  {
    SizesOf(h);
    if k < GroupPixels(h) && s.x < h.width {
      var t := DrawOne(h, paint(group, k), s);
      if !t.failed { DrawFromGrows(h, paint, t, group, k + 1); }
    }
  }

  lemma StepGrows(h: Header, paint: Painter, s: Scan, b: byte)
    requires LegalHeader(h)
    ensures s.draws <= Step(h, paint, s, b).draws
  {
    hide DrawFrom, Rebuild, Bpp;
    SettleKeepsDraws(h, s);
    SizesOf(h);
    var t := Settle(h, s);
    if t.filter >= 0 {
      var c := t.(cur := t.cur + [Rebuild(h, t, b)]);
      if |c.cur| >= Bpp(h) { DrawFromGrows(h, paint, c, c.cur[|c.cur| - Bpp(h)..], 0); }
    }
  }

  lemma {:induction false} RunGrows(h: Header, paint: Painter, s: Scan, data: seq<byte>)
    requires LegalHeader(h)
    ensures s.draws <= Run(h, paint, s, data).draws
    decreases |data|
  {
    hide Step;
    if data != [] {
      StepGrows(h, paint, s, data[0]);
      RunGrows(h, paint, Step(h, paint, s, data[0]), data[1..]);
    }
  }

  lemma {:induction false} RunInv(h: Header, paint: Painter, s: Scan, data: seq<byte>)
    requires Inv(h, s)
    ensures Inv(h, Run(h, paint, s, data))
    decreases |data|
  {
    hide Step;
    if data != [] {
      StepInv(h, paint, s, data[0]);
      RunInv(h, paint, Step(h, paint, s, data[0]), data[1..]);
    }
  }

  // ----- inside a row a pixel is still to come -----

  predicate Pending(h: Header, s: Scan) { !s.failed && !PassOver(h, Settle(h, s)) }

  /** While a row is under way, a byte draws something or leaves the row under way. */
  lemma PendingStep(h: Header, paint: Painter, s: Scan, b: byte)
    requires Inv(h, s) && Pending(h, s) && !Step(h, paint, s, b).failed
    ensures var t := Step(h, paint, s, b); |t.draws| > |s.draws| || Pending(h, t)
  {
    SettleInv(h, s);
    hide Settle, TakeByte, Inv, Stride, LegalHeader;
    var t := Settle(h, s);
    if t.filter >= 0 {
      PendingTake(h, paint, t, b);
    } else {
      InsideIsPending(h, Step(h, paint, s, b));
    }
  }

  lemma InsideIsPending(h: Header, s: Scan)
    requires !s.failed && s.x < h.width && s.y < h.height
    ensures Pending(h, s)
  {
  }

  lemma PendingTake(h: Header, paint: Painter, t: Scan, b: byte)
    requires LegalHeader(h) && t.x < h.width && t.y < h.height && t.filter >= 0 && !t.failed
    requires !TakeByte(h, paint, t, b).failed
    ensures var u := TakeByte(h, paint, t, b); |u.draws| > |t.draws| || Pending(h, u)
  {
    SizesOf(h);
    hide Rebuild, Bpp, DrawFrom, Pending, LegalHeader;
    var c := t.(cur := t.cur + [Rebuild(h, t, b)]);
    if |c.cur| % Bpp(h) == 0 && |c.cur| >= Bpp(h) {
      FirstOfGroup(h, paint, c, c.cur[|c.cur| - Bpp(h)..]);
    } else {
      InsideIsPending(h, c);
    }
  }

  lemma FirstOfGroup(h: Header, paint: Painter, s: Scan, group: seq<byte>)
    requires LegalHeader(h) && |group| == Bpp(h) && s.x < h.width && !s.failed
    ensures var t := DrawFrom(h, paint, s, group, 0); t.failed || |t.draws| > |s.draws|
  {
    SizesOf(h);
    var t := DrawOne(h, paint(group, 0), s);
    if !t.failed { DrawFromGrows(h, paint, t, group, 1); }
  }

  lemma {:induction false} PendingDraws(h: Header, paint: Painter, s: Scan, data: seq<byte>)
    requires LegalHeader(h) && Inv(h, s) && Pending(h, s) && Complete(h, Run(h, paint, s, data))
    ensures |Run(h, paint, s, data).draws| > |s.draws|
    decreases |data|
  {
    hide Inv, Settle, Step;
    if data != [] {
      var t := Step(h, paint, s, data[0]);
      if t.failed {
        FailedStays(h, paint, t, data[1..]);
      } else {
        StepGrows(h, paint, s, data[0]);
        StepInv(h, paint, s, data[0]);
        PendingStep(h, paint, s, data[0]);
        if |t.draws| > |s.draws| {
          RunGrows(h, paint, t, data[1..]);
        } else {
          PendingDraws(h, paint, t, data[1..]);
        }
      }
    }
  }

  // ----- before its last byte the image is under way -----

  lemma {:induction false} RowStateAt(
      h: Header, painter: Painter, p: Pass, y: nat, row: seq<byte>, prev: seq<byte>, pix: nat -> seq<byte>,
      f: nat, before: seq<Draw>, n: nat)
    requires LegalHeader(h) && f <= 4 && y < h.height && n <= |row| && RowShows(h, painter, p, row, pix)
    ensures Run(h, painter, RowState(h, p, y, row, prev, pix, f, before, 0), FilterRow(Bpp(h), row, prev, f)[..n])
         == RowState(h, p, y, row, prev, pix, f, before, n)
    decreases n
  {
    hide RowState, RowShows, FilterByte, Step;
    var bytes := FilterRow(Bpp(h), row, prev, f);
    var s := RowState(h, p, y, row, prev, pix, f, before, 0);
    if n > 0 {
      RowStateAt(h, painter, p, y, row, prev, pix, f, before, n - 1);
      RowStep(h, painter, p, y, row, prev, pix, f, before, n - 1);
      assert bytes[..n] == bytes[..n - 1] + [bytes[n - 1]];
      RunConcat(h, painter, s, bytes[..n - 1], [bytes[n - 1]]);
      RunOne(h, painter, Run(h, painter, s, bytes[..n - 1]), bytes[n - 1]);
    }
  }

  lemma RunOne(h: Header, painter: Painter, s: Scan, b: byte)
    requires LegalHeader(h)
    ensures Run(h, painter, s, [b]) == Step(h, painter, s, b)
  {
    assert [b][1..] == [];
  }

  lemma RowPending(h: Header, painter: Painter, rows: Rows, filters: Filters, pixels: Pixels,
                   p: Pass, r: nat, s: Scan, draws: seq<Draw>, k: nat)
    requires LegalHeader(h) && PassW(h, p) > 0 && r < PassH(h, p) && RowShows(h, painter, p, rows(p, r), pixels(p, r))
    requires !s.failed && Settle(h, s) == Settle(h, RowAt(h, rows, p, r, draws))
    requires k < |RowStream(h, rows, filters, p, r)|
    ensures Pending(h, Run(h, painter, s, RowStream(h, rows, filters, p, r)[..k]))
  {
    var row, prev, f, y := rows(p, r), PrevRow(h, rows, p, r), filters(p, r), PixelY(p, r);
    var data := RowStream(h, rows, filters, p, r);
    PixelVisible(h, p, 0);
    RowVisible(h, p, r);
    assert Settle(h, RowAt(h, rows, p, r, draws)) == RowAt(h, rows, p, r, draws);
    if k > 0 {
      assert draws + PixelDraws(h, p, y, pixels(p, r), 0) == draws;
      SizesOf(h);
      assert Step(h, painter, s, f) == RowState(h, p, y, row, prev, pixels(p, r), f, draws, 0);
      assert data[..k][1..] == FilterRow(Bpp(h), row, prev, f)[..k - 1];
      RowStateAt(h, painter, p, y, row, prev, pixels(p, r), f, draws, k - 1);
      RowSettled(h, p, RowState(h, p, y, row, prev, pixels(p, r), f, draws, k - 1));
    }
  }

  /** Reading on behind a first part. */
  lemma RunOver(h: Header, painter: Painter, s: Scan, a: seq<byte>, b: seq<byte>, k: nat)
    requires LegalHeader(h) && |a| <= k <= |a| + |b|
    ensures Run(h, painter, s, (a + b)[..k]) == Run(h, painter, Run(h, painter, s, a), b[..k - |a|])
  {
    hide Run;
    assert (a + b)[..k] == a + b[..k - |a|];
    RunConcat(h, painter, s, a, b[..k - |a|]);
  }

  lemma {:induction false} RowsPending(h: Header, painter: Painter, rows: Rows, filters: Filters, pixels: Pixels,
                                       p: Pass, r: nat, s: Scan, draws: seq<Draw>, k: nat)
    requires LegalHeader(h) && PassW(h, p) > 0 && r <= PassH(h, p) && Shows(h, painter, rows, pixels)
    requires !s.failed && Settle(h, s) == Settle(h, RowAt(h, rows, p, r, draws))
    requires k < |RowsStream(h, rows, filters, p, r)|
    ensures Pending(h, Run(h, painter, s, RowsStream(h, rows, filters, p, r)[..k]))
    decreases PassH(h, p) - r
  {
    hide RowStream, Run, Settle, RowAt, RowDraws, PassW, RowShows;
    var a, b := RowStream(h, rows, filters, p, r), RowsStream(h, rows, filters, p, r + 1);
    if k < |a| {
      assert (a + b)[..k] == a[..k];
      RowPending(h, painter, rows, filters, pixels, p, r, s, draws, k);
    } else {
      RowOfImage(h, painter, rows, filters, pixels, p, r, s, draws);
      RunOver(h, painter, s, a, b, k);
      RowsPending(h, painter, rows, filters, pixels, p, r + 1, Run(h, painter, s, a),
                  draws + RowDraws(h, pixels, p, r), k - |a|);
    }
  }

  lemma {:induction false} StreamPending(h: Header, painter: Painter, rows: Rows, filters: Filters, pixels: Pixels,
                                         p: Pass, s: Scan, draws: seq<Draw>, k: nat)
    requires LegalHeader(h) && Shows(h, painter, rows, pixels)
    requires !s.failed && Settle(h, s) == Settle(h, StartPass(h, p, draws))
    requires k < |Stream(h, rows, filters, p)|
    ensures Pending(h, Run(h, painter, s, Stream(h, rows, filters, p)[..k]))
    decreases 7 - p
  {
    hide Run, Settle, RowsStream, RowShows, Shows, Pending;
    var a := PassStream(h, rows, filters, p);
    if k < |a| {
      assert RowAt(h, rows, p, 0, draws) == StartPass(h, p, draws);
      assert Stream(h, rows, filters, p)[..k] == a[..k];
      RowsPending(h, painter, rows, filters, pixels, p, 0, s, draws, k);
    } else {
      PassOfImage(h, painter, rows, filters, pixels, p, s, draws);
      RunOver(h, painter, s, a, Stream(h, rows, filters, p + 1), k);
      var t := Run(h, painter, s, a);
      StreamPending(h, painter, rows, filters, pixels, p + 1, t, t.draws, k - |a|);
    }
  }

  // ----- so no proper part of the bytes draws the image -----

  lemma {:induction false} CountPositive(draws: seq<Draw>, k: nat)
    requires k < |draws|
    ensures CountAt(draws, draws[k].x, draws[k].y) >= 1
    decreases |draws|
  {
    if k < |draws| - 1 { CountPositive(draws[..|draws| - 1], k); }
  }

  /** Drawn once, nothing can be drawn again. */
  lemma DrawnIsAll(h: Header, colors: Colors, img: Image, s: Scan, t: Scan)
    requires LegalHeader(h) && ColorsFit(h, colors) && Drawn(h, colors, img, s) && Drawn(h, colors, img, t)
    requires s.draws <= t.draws
    ensures t.draws == s.draws
  {
    if |t.draws| > |s.draws| {
      var more := t.draws[|s.draws|..];
      var d := more[0];
      assert t.draws == s.draws + more;
      CountConcat(s.draws, more, d.x, d.y);
      CountPositive(more, 0);
    }
  }

  lemma PartPending(h: Header, colors: Colors, img: Image, filters: Filters, k: nat)
    requires Decodable(h, colors, img) && k < |Serialise(h, img, filters)|
    ensures Pending(h, Run(h, PainterOf(h, colors), Init(h), Serialise(h, img, filters)[..k]))
  {
    hide Run, Pending, Settle, Shows, ColorsFit, IndicesFit, ImageFor, LegalHeader, Stream;
    hide RowsOf, PixelsOf, PainterOf, Stride, FirstPass, OffX, OffY;
    ImageShows(h, colors, img);
    StreamPending(h, PainterOf(h, colors), RowsOf(h, img), filters, PixelsOf(h, colors, img), FirstPass(h), Init(h), [],
                  k);
  }

  /** The rest of the bytes draws something. */
  lemma RestDraws(h: Header, colors: Colors, img: Image, filters: Filters, k: nat)
    requires Decodable(h, colors, img) && k < |Serialise(h, img, filters)|
    ensures var data := Serialise(h, img, filters);
            var s := Run(h, PainterOf(h, colors), Init(h), data[..k]);
            var t := Run(h, PainterOf(h, colors), Init(h), data);
            s.draws <= t.draws && |s.draws| < |t.draws|
  {
    hide Run, Inv, Pending, Settle, Serialise, ColorsFit, IndicesFit, ImageFor, LegalHeader, Init, Complete;
    var painter := PainterOf(h, colors);
    var data := Serialise(h, img, filters);
    PartPending(h, colors, img, filters, k);
    InitInv(h);
    RunInv(h, painter, Init(h), data[..k]);
    assert data == data[..k] + data[k..];
    RunConcat(h, painter, Init(h), data[..k], data[k..]);
    DecodesImage(h, colors, img, filters);
    var s := Run(h, painter, Init(h), data[..k]);
    PendingDraws(h, painter, s, data[k..]);
    RunGrows(h, painter, s, data[k..]);
  }

  /** With its last byte missing, or more, an image is not drawn. */
  lemma PartIsNotDrawn(h: Header, colors: Colors, img: Image, filters: Filters, k: nat)
    requires Decodable(h, colors, img) && k < |Serialise(h, img, filters)|
    ensures !Drawn(h, colors, img, Run(h, PainterOf(h, colors), Init(h), Serialise(h, img, filters)[..k]))
  {
    hide Run, Drawn, Serialise, ColorsFit, IndicesFit, ImageFor, LegalHeader, Init;
    var data := Serialise(h, img, filters);
    var s := Run(h, PainterOf(h, colors), Init(h), data[..k]);
    RestDraws(h, colors, img, filters, k);
    ScanlinesDraw(h, colors, img, filters, []);
    assert data + [] == data;
    if Drawn(h, colors, img, s) { DrawnIsAll(h, colors, img, s, Run(h, PainterOf(h, colors), Init(h), data)); }
  }

  lemma InitInv(h: Header)
    requires LegalHeader(h)
    ensures Inv(h, Init(h))
  {
  }

  /** Bytes that begin an image, or that the image begins, draw it exactly when they hold all of it. */
  lemma DrawnIffWhole(h: Header, colors: Colors, img: Image, filters: Filters, data: seq<byte>)
    requires Decodable(h, colors, img)
    requires var lines := Serialise(h, img, filters); lines <= data || data <= lines
    ensures Drawn(h, colors, img, Run(h, PainterOf(h, colors), Init(h), data)) <==> Serialise(h, img, filters) <= data
  {
    hide Run, Drawn, Serialise, Init, ColorsFit, IndicesFit, ImageFor, LegalHeader;
    var lines := Serialise(h, img, filters);
    if lines <= data {
      assert data == lines + data[|lines|..];
      ScanlinesDraw(h, colors, img, filters, data[|lines|..]);
    } else {
      assert data == lines[..|data|];
      PartIsNotDrawn(h, colors, img, filters, |data|);
    }
  }
}
