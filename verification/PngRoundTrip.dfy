/**
 * The scanline decoder undoes the encoder: whatever the image, the filters and
 * the interlacing, every pixel is drawn once, in stream order, with its colour.
 */
module PngRoundTrip {
  import opened Basics
  import opened PngFormat
  import opened PngColors
  import opened PngScan

  // ----- one byte -----

  /** Filtering and rebuilding cancel, whichever predictor is used. */
  lemma FilterInverted(raw: byte, predictor: nat)
    ensures ((raw - predictor) % 256 + predictor) % 256 == raw
  {
  }

  lemma RebuildsRow(h: Header, s: Scan, row: seq<byte>, n: nat)
    requires LegalHeader(h) && n < |row| && s.cur == row[..n] && 0 <= s.filter
    ensures Rebuild(h, s, FilterByte(s.filter, Bpp(h), row, s.prev, n)) == row[n]
  {
    SizesOf(h);
    assert At(s.cur, n - Bpp(h)) == At(row, n - Bpp(h));
    FilterByteIs(s.filter, Bpp(h), row, s.prev, n);
    FilterInverted(row[n], Predict(s.filter, At(row, n - Bpp(h)), At(s.prev, n), At(s.prev, n - Bpp(h))));
  }

  // ----- one row, its colours given -----

  function GroupBytes(h: Header, row: seq<byte>, g: nat): seq<byte>
    requires g * Bpp(h) + Bpp(h) <= |row|
  {
    row[g * Bpp(h)..g * Bpp(h) + Bpp(h)]
  }

  predicate GroupInRow(h: Header, row: seq<byte>, g: nat) {
    g * Bpp(h) + Bpp(h) <= |row|
  }

  /** Read group by group, the row's bytes show the colours pix. */
  ghost predicate RowShows(h: Header, painter: Painter, p: Pass, row: seq<byte>, pix: nat -> seq<byte>)
    requires LegalHeader(h)
  {
    && |row| == Stride(h, p)
    && forall g: nat, k: nat | GroupInRow(h, row, g) && k < GroupPixels(h) && GroupStart(h, g) + k < PassW(h, p) ::
      painter(GroupBytes(h, row, g), k) == Rgba(pix(GroupStart(h, g) + k))
  }

  lemma PixelVisible(h: Header, p: Pass, j: nat)
    ensures PixelX(p, j) < h.width <==> j < PassW(h, p)
  {
    PixelXIs(p, j);
    StepsExact(h.width, OffX(p), DivX(p), j);
  }

  lemma RowVisible(h: Header, p: Pass, r: nat)
    ensures PixelY(p, r) < h.height <==> r < PassH(h, p)
  {
    PixelYIs(p, r);
    StepsExact(h.height, OffY(p), DivY(p), r);
  }

  /** Drawing the group at pixel j, from its pixel k on, draws the row up to the group's end. */
  lemma {:induction false} DrawsGroup(
      h: Header, painter: Painter, s: Scan, group: seq<byte>, pix: nat -> seq<byte>, j: nat, k: nat, before: seq<Draw>)
    requires LegalHeader(h) && k <= GroupPixels(h) && !s.failed
    requires forall i: nat | i < GroupPixels(h) && j + i < PassW(h, s.pass) :: painter(group, i) == Rgba(pix(j + i))
    requires |group| == Bpp(h)
    requires s.x == Min(PixelX(s.pass, j + k), h.width)
    requires s.draws == before + PixelDraws(h, s.pass, s.y, pix, Min(j + k, PassW(h, s.pass)))
    ensures DrawFrom(h, painter, s, group, k)
         == s.(x := Min(PixelX(s.pass, j + GroupPixels(h)), h.width),
               draws := before + PixelDraws(h, s.pass, s.y, pix, Min(j + GroupPixels(h), PassW(h, s.pass))))
    decreases GroupPixels(h) - k
  {
    hide PassW, GroupPixels;
    PixelVisible(h, s.pass, j + k);
    PixelXMonotone(s.pass, j + k, j + GroupPixels(h));
    if k < GroupPixels(h) {
      if s.x < h.width {
        hide DrawAt;
        assert painter(group, k) == Rgba(pix(j + k));
        var drawn := DrawAt(h, s.pass, s.x, s.y, pix(j + k));
        assert before + PixelDraws(h, s.pass, s.y, pix, j + k) + [drawn]
          == before + PixelDraws(h, s.pass, s.y, pix, j + k + 1);
        DrawsGroup(h, painter, s.(draws := s.draws + [drawn], x := Min(s.x + DivX(s.pass), h.width)),
                   group, pix, j, k + 1, before);
      }
    }
  }

  /** How many pixels of a row n bytes complete. */
  function DrawnAfter(h: Header, p: Pass, n: nat): nat
    requires LegalHeader(h)
  {
    SizesOf(h);
    Min(GroupStart(h, n / Bpp(h)), PassW(h, p))
  }

  /** The state after n bytes of a row: the original bytes so far, and their pixels drawn. */
  function RowState(h: Header, p: Pass, y: nat, row: seq<byte>, prev: seq<byte>, pix: nat -> seq<byte>,
                    f: nat, before: seq<Draw>, n: nat): Scan
    requires LegalHeader(h) && n <= |row|
  {
    Scan(p, ColumnAfter(h, p, n), y, f, prev, row[..n], before + PixelDraws(h, p, y, pix, DrawnAfter(h, p, n)), false)
  }

  lemma GroupBounds(n: nat, d: nat)
    requires d > 0 && (n + 1) % d == 0
    ensures n + 1 - d == (n / d) * d && (n + 1) / d == n / d + 1
  {
    NextGroup(n, d);
  }

  lemma TakeCompleting(h: Header, painter: Painter, s: Scan, b: byte, row: seq<byte>, pix: nat -> seq<byte>,
                       j: nat, g: nat, before: seq<Draw>)
    requires LegalHeader(h) && RowShows(h, painter, s.pass, row, pix) && |s.cur| < |row| && Bpp(h) > 0
    requires s.cur == row[..|s.cur|] && 0 <= s.filter && Rebuild(h, s, b) == row[|s.cur|] && !s.failed
    requires (|s.cur| + 1) % Bpp(h) == 0 && |s.cur| + 1 - Bpp(h) == g * Bpp(h) && j == GroupStart(h, g)
    requires s.x == Min(PixelX(s.pass, j), h.width)
    requires s.draws == before + PixelDraws(h, s.pass, s.y, pix, Min(j, PassW(h, s.pass)))
    ensures TakeByte(h, painter, s, b)
         == s.(cur := row[..|s.cur| + 1], x := Min(PixelX(s.pass, j + GroupPixels(h)), h.width),
               draws := before + PixelDraws(h, s.pass, s.y, pix, Min(j + GroupPixels(h), PassW(h, s.pass))))
  {
    hide Stride, Bpp, Rebuild, PixelDraws, PixelX, PassW, GroupPixels;
    var t := s.(cur := row[..|s.cur| + 1]);
    assert s.cur + [Rebuild(h, s, b)] == t.cur;
    var group := t.cur[|t.cur| - Bpp(h)..];
    assert GroupInRow(h, row, g) && group == GroupBytes(h, row, g);
    DrawsGroup(h, painter, t, group, pix, j, 0, before);
  }

  /** Column and pixel count around byte n of a row, which belongs to group g starting at pixel j. */
  lemma RowPlace(h: Header, p: Pass, n: nat) returns (j: nat, g: nat)
    requires LegalHeader(h) && OffX(p) < h.width
    ensures Bpp(h) > 0 && j == GroupStart(h, g)
    ensures ColumnAfter(h, p, n) == Min(PixelX(p, j), h.width) && DrawnAfter(h, p, n) == Min(j, PassW(h, p))
    ensures (n + 1) % Bpp(h) != 0 ==>
      ColumnAfter(h, p, n + 1) == ColumnAfter(h, p, n) && DrawnAfter(h, p, n + 1) == DrawnAfter(h, p, n)
    ensures (n + 1) % Bpp(h) == 0 ==>
      && n + 1 - Bpp(h) == g * Bpp(h)
      && ColumnAfter(h, p, n + 1) == Min(PixelX(p, j + GroupPixels(h)), h.width)
      && DrawnAfter(h, p, n + 1) == Min(j + GroupPixels(h), PassW(h, p))
  {
    hide Stride, PixelX, Bpp, PassW, ColumnAfter;
    j := ColumnStep(h, p, n);
    NextGroup(n, Bpp(h));
    g := n / Bpp(h);
    if (n + 1) % Bpp(h) == 0 {
      GroupBounds(n, Bpp(h));
    }
  }

  lemma RowTake(h: Header, painter: Painter, s: Scan, b: byte, row: seq<byte>, pix: nat -> seq<byte>, before: seq<Draw>)
    requires LegalHeader(h) && RowShows(h, painter, s.pass, row, pix) && |s.cur| < |row|
    requires s.cur == row[..|s.cur|] && 0 <= s.filter && Rebuild(h, s, b) == row[|s.cur|] && !s.failed
    requires s.x == ColumnAfter(h, s.pass, |s.cur|)
    requires s.draws == before + PixelDraws(h, s.pass, s.y, pix, DrawnAfter(h, s.pass, |s.cur|))
    ensures TakeByte(h, painter, s, b)
         == s.(cur := row[..|s.cur| + 1], x := ColumnAfter(h, s.pass, |s.cur| + 1),
               draws := before + PixelDraws(h, s.pass, s.y, pix, DrawnAfter(h, s.pass, |s.cur| + 1)))
  {
    hide Stride, PixelX, Bpp, PixelDraws, PassW, GroupStart, ColumnAfter, DrawnAfter;
    var n := |s.cur|;
    RowEnd(h, s.pass, n);
    var j, g := RowPlace(h, s.pass, n);
    if (n + 1) % Bpp(h) == 0 {
      TakeCompleting(h, painter, s, b, row, pix, j, g, before);
    } else {
      assert s.cur + [row[n]] == row[..n + 1];
    }
  }

  /** Inside a row there is no row or pass to leave. */
  lemma RowSettled(h: Header, p: Pass, s: Scan)
    requires LegalHeader(h) && s.pass == p && s.y < h.height && |s.cur| < Stride(h, p)
      && s.x == ColumnAfter(h, p, |s.cur|)
    ensures Settle(h, s) == s && !PassOver(h, s)
  {
    hide Stride, Bpp, PassW, ColumnAfter, LegalHeader;
    RowEnd(h, p, |s.cur|);
    StridePositive(h, p);
  }

  lemma StridePositive(h: Header, p: Pass)
    requires LegalHeader(h)
    ensures OffX(p) >= h.width ==> Stride(h, p) == 0
  {
    hide Stride;
    RowEnd(h, p, 0);
  }

  lemma RowStep(h: Header, painter: Painter, p: Pass, y: nat, row: seq<byte>, prev: seq<byte>, pix: nat -> seq<byte>,
                f: nat, before: seq<Draw>, n: nat)
    requires LegalHeader(h) && f <= 4 && y < h.height && n < |row| && RowShows(h, painter, p, row, pix)
    ensures Step(h, painter, RowState(h, p, y, row, prev, pix, f, before, n), FilterByte(f, Bpp(h), row, prev, n))
         == RowState(h, p, y, row, prev, pix, f, before, n + 1)
  {
    var s := RowState(h, p, y, row, prev, pix, f, before, n);
    RowSettled(h, p, s);
    hide Stride, Bpp, PixelDraws, PassW, Settle, TakeByte, Rebuild, FilterByte, ColumnAfter, DrawnAfter, LegalHeader;
    RebuildsRow(h, s, row, n);
    RowTake(h, painter, s, FilterByte(f, Bpp(h), row, prev, n), row, pix, before);
  }

  lemma {:induction false} RowRunFrom(
      h: Header, painter: Painter, p: Pass, y: nat, row: seq<byte>, prev: seq<byte>, pix: nat -> seq<byte>,
      f: nat, before: seq<Draw>, n: nat)
    requires LegalHeader(h) && f <= 4 && y < h.height && n <= |row| && RowShows(h, painter, p, row, pix)
    ensures Run(h, painter, RowState(h, p, y, row, prev, pix, f, before, n), FilterRow(Bpp(h), row, prev, f)[n..])
         == RowState(h, p, y, row, prev, pix, f, before, |row|)
    decreases |row| - n
  {
    if n < |row| {
      var rest := FilterRow(Bpp(h), row, prev, f)[n..];
      assert rest[1..] == FilterRow(Bpp(h), row, prev, f)[n + 1..];
      RowStep(h, painter, p, y, row, prev, pix, f, before, n);
      RowRunFrom(h, painter, p, y, row, prev, pix, f, before, n + 1);
    }
  }

  /** A whole row, filter byte first, wherever the decoder stands as long as that row is next. */
  lemma RowRun(h: Header, painter: Painter, s: Scan, p: Pass, y: nat, row: seq<byte>, prev: seq<byte>,
               pix: nat -> seq<byte>, f: byte, before: seq<Draw>)
    requires LegalHeader(h) && f <= 4 && y < h.height && OffX(p) < h.width && RowShows(h, painter, p, row, pix)
    requires !s.failed && Settle(h, s) == Scan(p, OffX(p), y, -1, prev, [], before, false)
    ensures Run(h, painter, s, [f] + FilterRow(Bpp(h), row, prev, f))
      == RowState(h, p, y, row, prev, pix, f, before, |row|)
  {
    var data := [f] + FilterRow(Bpp(h), row, prev, f);
    assert data[1..] == FilterRow(Bpp(h), row, prev, f)[0..];
    assert before + PixelDraws(h, p, y, pix, 0) == before;
    SizesOf(h);
    assert Step(h, painter, s, f) == RowState(h, p, y, row, prev, pix, f, before, 0);
    RowRunFrom(h, painter, p, y, row, prev, pix, f, before, 0);
  }

  // ----- all rows of a pass -----

  /** Every row of every pass shows its colours. */
  ghost predicate Shows(h: Header, painter: Painter, rows: Rows, pixels: Pixels)
    requires LegalHeader(h)
  {
    forall p: Pass, r: nat | r < PassH(h, p) :: RowShows(h, painter, p, rows(p, r), pixels(p, r))
  }

  /** The decoder about to read row r of pass p. */
  function RowAt(h: Header, rows: Rows, p: Pass, r: nat, draws: seq<Draw>): Scan {
    Scan(p, OffX(p), RowY(h, p, r), -1, PrevRow(h, rows, p, r), [], draws, false)
  }

  /** The stride completes every pixel of the row. */
  lemma AllDrawn(h: Header, p: Pass)
    requires LegalHeader(h)
    ensures DrawnAfter(h, p, Stride(h, p)) == PassW(h, p)
  {
    SizesOf(h);
    var g := Stride(h, p) / Bpp(h);
    GroupAgreement(h, p, g);
    DivMul(Stride(h, p), Bpp(h));
    GroupStartIs(h, g);
  }

  lemma RowOfImage(h: Header, painter: Painter, rows: Rows, filters: Filters, pixels: Pixels,
                   p: Pass, r: nat, s: Scan, draws: seq<Draw>)
    requires LegalHeader(h) && PassW(h, p) > 0 && r < PassH(h, p) && RowShows(h, painter, p, rows(p, r), pixels(p, r))
    requires !s.failed && Settle(h, s) == Settle(h, RowAt(h, rows, p, r, draws))
    ensures var t := Run(h, painter, s, RowStream(h, rows, filters, p, r));
            !t.failed && Settle(h, t) == Settle(h, RowAt(h, rows, p, r + 1, draws + RowDraws(h, pixels, p, r)))
  {
    var row, prev := rows(p, r), PrevRow(h, rows, p, r);
    PixelVisible(h, p, 0);
    RowVisible(h, p, r);
    RowRun(h, painter, s, p, PixelY(p, r), row, prev, pixels(p, r), filters(p, r), draws);
    var t := RowState(h, p, PixelY(p, r), row, prev, pixels(p, r), filters(p, r), draws, |row|);
    RowEnd(h, p, |row|);
    AllDrawn(h, p);
    assert NewRow(h, t) == RowAt(h, rows, p, r + 1, draws + RowDraws(h, pixels, p, r));
  }

  lemma {:induction false} RowsOfImage(h: Header, painter: Painter, rows: Rows, filters: Filters, pixels: Pixels,
                                       p: Pass, r: nat, s: Scan, draws: seq<Draw>)
    requires LegalHeader(h) && PassW(h, p) > 0 && r <= PassH(h, p) && Shows(h, painter, rows, pixels)
    requires !s.failed && Settle(h, s) == Settle(h, RowAt(h, rows, p, r, draws))
    ensures var t := Run(h, painter, s, RowsStream(h, rows, filters, p, r));
            !t.failed && Settle(h, t) == Settle(h, RowAt(h, rows, p, PassH(h, p), draws + RowsDraws(h, pixels, p, r)))
    decreases PassH(h, p) - r
  {
    if r < PassH(h, p) {
      RowOfImage(h, painter, rows, filters, pixels, p, r, s, draws);
      var t := Run(h, painter, s, RowStream(h, rows, filters, p, r));
      var more := draws + RowDraws(h, pixels, p, r);
      RowsOfImage(h, painter, rows, filters, pixels, p, r + 1, t, more);
      RunConcat(h, painter, s, RowStream(h, rows, filters, p, r), RowsStream(h, rows, filters, p, r + 1));
    }
    RowsDrawsUnfold(h, pixels, p, r, draws);
  }

  lemma RowsDrawsUnfold(h: Header, pixels: Pixels, p: Pass, r: nat, draws: seq<Draw>)
    ensures r < PassH(h, p) ==>
      (draws + RowDraws(h, pixels, p, r)) + RowsDraws(h, pixels, p, r + 1) == draws + RowsDraws(h, pixels, p, r)
    ensures r >= PassH(h, p) ==> draws + RowsDraws(h, pixels, p, r) == draws
  {
  }

  // ----- all passes -----

  lemma {:induction false} SettleKeepsDraws(h: Header, s: Scan)
    ensures Settle(h, s).draws == s.draws && Settle(h, s).failed == s.failed
    ensures Settle(h, s).x >= h.width ==> Settle(h, s).x == OffX(Settle(h, s).pass)
    decreases 7 - s.pass
  {
    var t := NewRow(h, s);
    if PassOver(h, t) && !LastPass(t.pass) {
      SettleKeepsDraws(h, StartPass(h, t.pass + 1, t.draws).(failed := t.failed));
    }
  }

  /** No byte belongs to the image any more. */
  predicate Complete(h: Header, s: Scan) {
    !s.failed && PassOver(h, Settle(h, s)) && LastPass(Settle(h, s).pass)
  }

  lemma PassOfImage(h: Header, painter: Painter, rows: Rows, filters: Filters, pixels: Pixels,
                    p: Pass, s: Scan, draws: seq<Draw>)
    requires LegalHeader(h) && Shows(h, painter, rows, pixels)
    requires !s.failed && Settle(h, s) == Settle(h, StartPass(h, p, draws))
    ensures var t := Run(h, painter, s, PassStream(h, rows, filters, p));
            && !t.failed && t.draws == draws + PassDraws(h, pixels, p)
            && (if LastPass(p) then Complete(h, t) else Settle(h, t) == Settle(h, StartPass(h, p + 1, t.draws)))
  {
    var t := Run(h, painter, s, PassStream(h, rows, filters, p));
    PixelVisible(h, p, 0);
    SettleKeepsDraws(h, t);
    if PassW(h, p) > 0 {
      var over := RowAt(h, rows, p, PassH(h, p), draws + PassDraws(h, pixels, p));
      RowVisible(h, p, PassH(h, p));
      assert RowAt(h, rows, p, 0, draws) == StartPass(h, p, draws);
      RowsOfImage(h, painter, rows, filters, pixels, p, 0, s, draws);
      SettleKeepsDraws(h, over);
    } else {
      assert draws + PassDraws(h, pixels, p) == draws;
      SettleKeepsDraws(h, StartPass(h, p, draws));
    }
  }

  lemma {:induction false} PassesOfImage(h: Header, painter: Painter, rows: Rows, filters: Filters, pixels: Pixels,
                                         p: Pass, s: Scan, draws: seq<Draw>)
    requires LegalHeader(h) && Shows(h, painter, rows, pixels)
    requires !s.failed && Settle(h, s) == Settle(h, StartPass(h, p, draws))
    ensures var t := Run(h, painter, s, Stream(h, rows, filters, p));
            Complete(h, t) && t.draws == draws + Draws(h, pixels, p)
    decreases 7 - p
  {
    PassOfImage(h, painter, rows, filters, pixels, p, s, draws);
    if !LastPass(p) {
      var t := Run(h, painter, s, PassStream(h, rows, filters, p));
      PassesOfImage(h, painter, rows, filters, pixels, p + 1, t, t.draws);
      RunConcat(h, painter, s, PassStream(h, rows, filters, p), Stream(h, rows, filters, p + 1));
      DrawsUnfold(h, pixels, p, draws);
    }
  }

  lemma DrawsUnfold(h: Header, pixels: Pixels, p: Pass, draws: seq<Draw>)
    requires !LastPass(p)
    ensures (draws + PassDraws(h, pixels, p)) + Draws(h, pixels, p + 1) == draws + Draws(h, pixels, p)
  {
    hide PassDraws;
  }

  /** Past the last row whatever follows is ignored. */
  lemma {:induction false} TrailingIgnored(h: Header, painter: Painter, s: Scan, extra: seq<byte>)
    requires LegalHeader(h) && Complete(h, s)
    ensures Complete(h, Run(h, painter, s, extra)) && Run(h, painter, s, extra).draws == s.draws
    decreases |extra|
  {
    if extra != [] {
      SettleKeepsDraws(h, s);
      TrailingIgnored(h, painter, Settle(h, s), extra[1..]);
    }
  }

  // ----- the packed rows of an image show its colours -----

  function BytesOf(r: Rgba): seq<byte> {
    match r
    case OutOfRange => []
    case Rgba(bytes) => bytes
  }

  /** The colour the callback is given for a pixel's samples. */
  function Paint(h: Header, c: Colors, v: seq<nat>): seq<byte>
    requires LegalHeader(h) && ColorsFit(h, c)
  {
    if |v| == Channels(h.colorType) then BytesOf(PixelRgba(h, c, v)) else []
  }

  function PixelsOf(h: Header, c: Colors, img: Image): Pixels
    requires LegalHeader(h) && ColorsFit(h, c)
  {
    (p: Pass, r: nat) => (j: nat) => Paint(h, c, img(PixelX(p, j), PixelY(p, r)))
  }

  /** Every visible palette index is in range. */
  ghost predicate IndicesFit(h: Header, c: Colors, img: Image) {
    h.colorType == 3 ==> forall x: nat, y: nat | x < h.width && y < h.height :: FirstSample(img(x, y)) < c.nPalettes
  }

  /** An image, with the tables its colours need. */
  ghost predicate Decodable(h: Header, c: Colors, img: Image) {
    LegalHeader(h) && ColorsFit(h, c) && ImageFor(h, img) && IndicesFit(h, c, img)
  }

  lemma PixelInGroup(p: Pass, j: nat, k: nat)
    ensures PixelX(p, j) + DivX(p) * k == PixelX(p, j + k)
  {
    PixelXIs(p, j);
    PixelXIs(p, j + k);
    assert DivX(p) * (j + k) == DivX(p) * j + DivX(p) * k;
  }

  lemma JoinedGroup(h: Header, groups: nat -> seq<byte>, n: nat, g: nat)
    requires Bpp(h) > 0 && |groups(g)| == Bpp(h) && GroupInRow(h, Joined(groups, Bpp(h), n), g)
    ensures GroupBytes(h, Joined(groups, Bpp(h), n), g) == groups(g)
  {
    forall i | 0 <= i < Bpp(h)
      ensures GroupBytes(h, Joined(groups, Bpp(h), n), g)[i] == groups(g)[i]
    {
      DivOfShifted(g, Bpp(h), i);
    }
  }

  lemma PaintDefined(h: Header, c: Colors, img: Image, x: nat, y: nat)
    requires Decodable(h, c, img) && x < h.width && y < h.height
    ensures |img(x, y)| == Channels(h.colorType) && PixelRgba(h, c, img(x, y)) == Rgba(Paint(h, c, img(x, y)))
  {
    assert SamplesFit(h, img(x, y));
    assert h.colorType == 3 ==> FirstSample(img(x, y)) == img(x, y)[0] < c.nPalettes;
  }

  lemma PaintsPixel(h: Header, c: Colors, img: Image, p: Pass, r: nat, g: nat, k: nat)
    requires Decodable(h, c, img) && k < GroupPixels(h)
    requires PixelX(p, GroupStart(h, g) + k) < h.width && PixelY(p, r) < h.height
    ensures GroupRgba(h, c, GroupOf(h, img, p, r, g), k)
         == Rgba(Paint(h, c, img(PixelX(p, GroupStart(h, g) + k), PixelY(p, r))))
  {
    PixelInGroup(p, GroupStart(h, g), k);
    ReadPacked(h, img, PixelX(p, GroupStart(h, g)), DivX(p), PixelY(p, r), GroupOf(h, img, p, r, g), k);
    PaintDefined(h, c, img, PixelX(p, GroupStart(h, g) + k), PixelY(p, r));
    GroupRead(h, c, GroupOf(h, img, p, r, g), k, img(PixelX(p, GroupStart(h, g) + k), PixelY(p, r)));
  }

  lemma GroupRead(h: Header, c: Colors, group: seq<byte>, k: nat, v: seq<nat>)
    requires LegalHeader(h) && ColorsFit(h, c) && |group| == Bpp(h) && k < GroupPixels(h)
    requires ReadSamples(h, group, k) == v && |v| == Channels(h.colorType)
    ensures GroupRgba(h, c, group, k) == PixelRgba(h, c, v)
  {
  }

  /** If pixel k of group g lies in the row, the painter gives it its colour. */
  predicate PixelShows(h: Header, painter: Painter, p: Pass, group: seq<byte>, g: nat, k: nat, pix: nat -> seq<byte>)
    requires LegalHeader(h)
  {
    k < GroupPixels(h) && GroupStart(h, g) + k < PassW(h, p) ==> painter(group, k) == Rgba(pix(GroupStart(h, g) + k))
  }

  /** Each group of a row has the right length and shows its pixels. */
  ghost predicate GroupShows(h: Header, painter: Painter, p: Pass, group: seq<byte>, g: nat, pix: nat -> seq<byte>)
    requires LegalHeader(h)
  {
    |group| == Bpp(h) && forall k: nat :: PixelShows(h, painter, p, group, g, k, pix)
  }

  lemma JoinedShows(h: Header, painter: Painter, p: Pass, groups: nat -> seq<byte>, pix: nat -> seq<byte>)
    requires LegalHeader(h) && Bpp(h) > 0 && forall g: nat :: GroupShows(h, painter, p, groups(g), g, pix)
    ensures RowShows(h, painter, p, Joined(groups, Bpp(h), Stride(h, p)), pix)
  {
    var row := Joined(groups, Bpp(h), Stride(h, p));
    forall g: nat, k: nat | GroupInRow(h, row, g) && k < GroupPixels(h) && GroupStart(h, g) + k < PassW(h, p)
      ensures painter(GroupBytes(h, row, g), k) == Rgba(pix(GroupStart(h, g) + k))
    {
      assert GroupShows(h, painter, p, groups(g), g, pix);
      assert PixelShows(h, painter, p, groups(g), g, k, pix);
      JoinedGroup(h, groups, Stride(h, p), g);
    }
  }

  lemma GroupOfImageShows(h: Header, c: Colors, img: Image, p: Pass, r: nat, g: nat)
    requires Decodable(h, c, img) && PixelY(p, r) < h.height
    ensures GroupShows(h, PainterOf(h, c), p, GroupOf(h, img, p, r, g), g, PixelsOf(h, c, img)(p, r))
  {
    hide GroupOf, Paint, PixelX, PixelY, PassW, Bpp, GroupPixels;
    forall k: nat
      ensures PixelShows(h, PainterOf(h, c), p, GroupOf(h, img, p, r, g), g, k, PixelsOf(h, c, img)(p, r))
    {
      PixelVisible(h, p, GroupStart(h, g) + k);
      if k < GroupPixels(h) && GroupStart(h, g) + k < PassW(h, p) {
        PaintsPixel(h, c, img, p, r, g, k);
      }
    }
  }

  lemma RowOfImageShows(h: Header, c: Colors, img: Image, p: Pass, r: nat)
    requires Decodable(h, c, img) && r < PassH(h, p)
    ensures RowShows(h, PainterOf(h, c), p, RawRow(h, img, p, r), PixelsOf(h, c, img)(p, r))
  {
    SizesOf(h);
    RowVisible(h, p, r);
    var groups := GroupsOf(h, img, p, r);
    forall g: nat
      ensures GroupShows(h, PainterOf(h, c), p, groups(g), g, PixelsOf(h, c, img)(p, r))
    {
      GroupOfImageShows(h, c, img, p, r, g);
    }
    JoinedShows(h, PainterOf(h, c), p, groups, PixelsOf(h, c, img)(p, r));
  }

  lemma ImageShows(h: Header, c: Colors, img: Image)
    requires Decodable(h, c, img)
    ensures Shows(h, PainterOf(h, c), RowsOf(h, img), PixelsOf(h, c, img))
  {
    forall p: Pass, r: nat | r < PassH(h, p)
      ensures RowShows(h, PainterOf(h, c), p, RowsOf(h, img)(p, r), PixelsOf(h, c, img)(p, r))
    {
      RowOfImageShows(h, c, img, p, r);
    }
  }

  // ----- the whole image -----

  /** Feeding a serialised image draws exactly its pixels, in order, and fails nowhere. */
  lemma DecodesImage(h: Header, c: Colors, img: Image, filters: Filters)
    requires Decodable(h, c, img)
    ensures var t := Run(h, PainterOf(h, c), Init(h), Serialise(h, img, filters));
            Complete(h, t) && t.draws == Draws(h, PixelsOf(h, c, img), FirstPass(h))
  {
    ImageShows(h, c, img);
    PassesOfImage(h, PainterOf(h, c), RowsOf(h, img), filters, PixelsOf(h, c, img),
                  FirstPass(h), Init(h), []);
  }

  /** The same in any number of calls, with anything after the image. */
  lemma DecodesInAnyCalls(h: Header, c: Colors, img: Image, filters: Filters, calls: seq<seq<byte>>, extra: seq<byte>)
    requires Decodable(h, c, img) && Flatten(calls) == Serialise(h, img, filters) + extra
    ensures !RunAll(h, PainterOf(h, c), Init(h), calls).failed
    ensures RunAll(h, PainterOf(h, c), Init(h), calls).draws == Draws(h, PixelsOf(h, c, img), FirstPass(h))
  {
    AnyCalls(h, PainterOf(h, c), Init(h), calls);
    RunConcat(h, PainterOf(h, c), Init(h), Serialise(h, img, filters), extra);
    DecodesImage(h, c, img, filters);
    TrailingIgnored(h, PainterOf(h, c), Run(h, PainterOf(h, c), Init(h), Serialise(h, img, filters)), extra);
  }

  // ----- every pixel once -----

  /** How many of the draws have their corner at (x, y). */
  function CountAt(draws: seq<Draw>, x: nat, y: nat): nat {
    if draws == [] then 0
    else CountAt(draws[..|draws| - 1], x, y) + (if draws[|draws| - 1].x == x && draws[|draws| - 1].y == y then 1 else 0)
  }

  lemma {:induction false} CountConcat(a: seq<Draw>, b: seq<Draw>, x: nat, y: nat)
    ensures CountAt(a + b, x, y) == CountAt(a, x, y) + CountAt(b, x, y)
    decreases |b|
  {
    if b == [] {
      assert a + b == a;
    } else {
      assert (a + b)[..|a + b| - 1] == a + b[..|b| - 1];
      CountConcat(a, b[..|b| - 1], x, y);
    }
  }

  /** Some pixel before the n-th of a row stands at column x. */
  predicate Hits(p: Pass, n: nat, x: nat) {
    exists j: nat | j < n :: PixelX(p, j) == x
  }

  lemma {:induction false} CountRow(h: Header, p: Pass, yy: nat, pix: nat -> seq<byte>, n: nat, x: nat, y: nat)
    ensures CountAt(PixelDraws(h, p, yy, pix, n), x, y) == (if y == yy && Hits(p, n, x) then 1 else 0)
    decreases n
  {
    var draws := PixelDraws(h, p, yy, pix, n);
    if n > 0 {
      assert draws[..n - 1] == PixelDraws(h, p, yy, pix, n - 1);
      assert draws[n - 1] == DrawAt(h, p, PixelX(p, n - 1), yy, pix(n - 1));
      CountRow(h, p, yy, pix, n - 1, x, y);
      forall j: nat | j < n - 1 ensures PixelX(p, j) < PixelX(p, n - 1) {
        PixelXMonotone(p, j, n - 2);
      }
      assert Hits(p, n, x) <==> Hits(p, n - 1, x) || PixelX(p, n - 1) == x;
    }
  }

  /** Some row from r on, before row n of the pass, stands at line y. */
  predicate HitsRow(p: Pass, r: nat, n: nat, y: nat) {
    exists i: nat | r <= i < n :: PixelY(p, i) == y
  }

  lemma {:induction false} PixelYMonotone(p: Pass, i: nat, j: nat)
    requires i < j
    ensures PixelY(p, i) < PixelY(p, j)
  {
    if i < j - 1 {
      PixelYMonotone(p, i, j - 1);
    }
  }

  lemma {:induction false} CountRows(h: Header, pixels: Pixels, p: Pass, r: nat, x: nat, y: nat)
    ensures CountAt(RowsDraws(h, pixels, p, r), x, y)
         == (if Hits(p, PassW(h, p), x) && HitsRow(p, r, PassH(h, p), y) then 1 else 0)
    decreases PassH(h, p) - r
  {
    if r < PassH(h, p) {
      CountRow(h, p, PixelY(p, r), pixels(p, r), PassW(h, p), x, y);
      CountRows(h, pixels, p, r + 1, x, y);
      CountConcat(RowDraws(h, pixels, p, r), RowsDraws(h, pixels, p, r + 1), x, y);
      forall i: nat | r < i ensures PixelY(p, r) < PixelY(p, i) {
        PixelYMonotone(p, r, i);
      }
      assert HitsRow(p, r, PassH(h, p), y) <==> PixelY(p, r) == y || HitsRow(p, r + 1, PassH(h, p), y);
    }
  }

  lemma HitsExactly(h: Header, p: Pass, x: nat, y: nat)
    ensures Hits(p, PassW(h, p), x) <==> x < h.width && x >= OffX(p) && (x - OffX(p)) % DivX(p) == 0
    ensures HitsRow(p, 0, PassH(h, p), y) <==> y < h.height && y >= OffY(p) && (y - OffY(p)) % DivY(p) == 0
  {
    forall j: nat
      ensures PixelX(p, j) >= OffX(p) && (PixelX(p, j) - OffX(p)) % DivX(p) == 0
      ensures PixelX(p, j) < h.width <==> j < PassW(h, p)
    {
      PixelXIs(p, j);
      PixelVisible(h, p, j);
      DivOfShifted(j, DivX(p), 0);
    }
    forall i: nat
      ensures PixelY(p, i) >= OffY(p) && (PixelY(p, i) - OffY(p)) % DivY(p) == 0
      ensures PixelY(p, i) < h.height <==> i < PassH(h, p)
    {
      PixelYIs(p, i);
      RowVisible(h, p, i);
      DivOfShifted(i, DivY(p), 0);
    }
    if x >= OffX(p) && (x - OffX(p)) % DivX(p) == 0 {
      PixelXIs(p, (x - OffX(p)) / DivX(p));
    }
    if y >= OffY(p) && (y - OffY(p)) % DivY(p) == 0 {
      PixelYIs(p, (y - OffY(p)) / DivY(p));
    }
  }

  function One(b: bool): nat { if b then 1 else 0 }

  lemma CountPass(h: Header, pixels: Pixels, p: Pass, x: nat, y: nat)
    ensures CountAt(PassDraws(h, pixels, p), x, y) == One(x < h.width && y < h.height && InPass(p, x, y))
  {
    CountRows(h, pixels, p, 0, x, y);
    HitsExactly(h, p, x, y);
  }

  /** The passes that hold (x, y), counted from pass p on. */
  function PassesHolding(p: Pass, x: nat, y: nat): nat
    decreases 7 - p
  {
    One(InPass(p, x, y)) + (if p == 0 || p == 7 then 0 else PassesHolding(p + 1, x, y))
  }

  /** The pass of each pixel of the 8 by 8 pattern of RFC 2083 section 2.6: row j is
      7s when odd, otherwise 6 in the odd columns, and so on inwards down to pass 1. */
  function Adam7(i: nat, j: nat): (p: Pass)
    requires i < 8 && j < 8
    ensures p > 0
  {
    if j % 2 == 1 then 7
    else if i % 2 == 1 then 6
    else if j % 4 == 2 then 5
    else if i % 4 == 2 then 4
    else if j == 4 then 3
    else if i == 4 then 2
    else 1
  }

  /** The pattern as the RFC prints it. */
  lemma Adam7Table(i: nat)
    requires i < 8
    ensures Adam7(i, 0) == [1, 6, 4, 6, 2, 6, 4, 6][i]
    ensures Adam7(i, 2) == Adam7(i, 6) == [5, 6, 5, 6, 5, 6, 5, 6][i]
    ensures Adam7(i, 4) == [3, 6, 4, 6, 3, 6, 4, 6][i]
    ensures Adam7(i, 1) == Adam7(i, 3) == Adam7(i, 5) == Adam7(i, 7) == 7
  {
  }

  lemma StepModulo(x: nat, o: nat, d: nat)
    requires d in {1, 2, 4, 8} && o < d
    ensures x >= o && (x - o) % d == 0 <==> (x % 8) % d == o
  {
    var q, r := x / 8, x % 8;
    var k := match d case 1 => 8 case 2 => 4 case 4 => 2 case _ => 1;
    assert x == (k * q) * d + r by { assert k * d == 8; Regrouped(k, q, d); }
    AddMultiple(k * q, r, d);
    AddMultiple(x / d, x % d, d);
    if x >= o { ShiftedModulo(x, o, d); }
    if x < o { SmallModulo(x, d); }
  }

  lemma Regrouped(k: nat, q: nat, d: nat)
    ensures (k * q) * d == (k * d) * q
  {
  }

  lemma SmallModulo(x: nat, d: nat)
    requires x < d
    ensures x % d == x
  {
  }

  lemma AddMultiple(q: nat, r: nat, d: nat)
    requires d > 0
    ensures (q * d + r) % d == r % d
    decreases q
  {
    if q > 0 {
      assert q * d + r == (q - 1) * d + r + d;
      AddMultiple(q - 1, r, d);
      AddOne((q - 1) * d + r, d);
    }
  }

  lemma AddOne(n: nat, d: nat)
    requires d > 0
    ensures (n + d) % d == n % d
  {
    var q, r := n / d, n % d;
    DivMul(n, d);
    assert n + d == (q + 1) * d + r;
    RemainderIs(n + d, q + 1, r, d);
  }

  lemma RemainderIs(n: nat, q: nat, r: nat, d: nat)
    requires d > 0 && r < d && n == q * d + r
    ensures n % d == r
  {
    var k := n / d;
    DivMul(n, d);
    MulAtMost(k + 1, q, d);
    MulAtMost(q + 1, k, d);
  }

  lemma ShiftedModulo(x: nat, o: nat, d: nat)
    requires d > 0 && o < d && o <= x
    ensures (x - o) % d == 0 <==> x % d == o
  {
    DivMul(x, d);
    DivMul(x - o, d);
    if (x - o) % d == 0 { RemainderIs(x, (x - o) / d, o, d); }
    if x % d == o { RemainderIs(x - o, x / d, 0, d); }
  }

  /** The residues a pass visits, pass by pass. */
  lemma PassResidues(p: Pass, i: nat, j: nat)
    requires 0 < p && i < 8 && j < 8
    ensures i % DivX(p) == OffX(p) && j % DivY(p) == OffY(p) <==> p == Adam7(i, j)
  {
    match p
    case 1 =>
    case 2 =>
    case 3 =>
    case 4 =>
    case 5 =>
    case 6 =>
    case 7 =>
  }

  lemma PassesPartition(p: Pass, x: nat, y: nat)
    ensures InPass(p, x, y) <==> p == 0 || p == Adam7(x % 8, y % 8)
  {
    if p > 0 {
      hide Adam7;
      assert OffX(p) < DivX(p) && OffY(p) < DivY(p) && DivX(p) in {1, 2, 4, 8} && DivY(p) in {1, 2, 4, 8};
      hide OffX, OffY, DivX, DivY;
      StepModulo(x, OffX(p), DivX(p));
      StepModulo(y, OffY(p), DivY(p));
      PassResidues(p, x % 8, y % 8);
    }
  }

  /** The residues of a block: but for its corner they belong to later passes. */
  lemma BlockResidues(p: Pass, i: nat, j: nat, dx: nat, dy: nat)
    requires 0 < p && i < 8 && j < 8 && p == Adam7(i, j)
    requires dx < DivX(p) - OffX(p) && dy < DivY(p) - OffY(p)
    ensures dx + dy > 0 ==> Adam7((i + dx) % 8, (j + dy) % 8) > p
  {
    PassResidues(p, i, j);
    assert p == 1 ==> i == j == 0;
    assert p == 2 ==> i == 4 && j == 0;
    assert p == 3 ==> i in {0, 4} && j == 4;
  }

  /** What follows a block on either side belongs to this pass or an earlier one. */
  lemma BehindBlock(p: Pass, i: nat, j: nat)
    requires 0 < p && i < 8 && j < 8 && p == Adam7(i, j)
    ensures Adam7((i + DivX(p) - OffX(p)) % 8, j) <= p && Adam7(i, (j + DivY(p) - OffY(p)) % 8) <= p
  {
    PassResidues(p, i, j);
  }

  lemma ResidueOfSum(x: nat, d: nat)
    ensures (x + d) % 8 == (x % 8 + d) % 8
  {
  }

  /** Drawn for itself by pass p or an earlier one. */
  ghost predicate DrawnBy(p: Pass, x: nat, y: nat) { exists q: Pass :: 0 < q <= p && InPass(q, x, y) }

  lemma DrawnByIs(p: Pass, x: nat, y: nat)
    requires 0 < p
    ensures DrawnBy(p, x, y) <==> Adam7(x % 8, y % 8) <= p
  {
    hide InPass, Adam7;
    var r := Adam7(x % 8, y % 8);
    PassesPartition(r, x, y);
    forall q: Pass | 0 < q <= p && InPass(q, x, y) ensures q == r { PassesPartition(q, x, y); }
  }

  lemma LaterInside(p: Pass, x: nat, y: nat, dx: nat, dy: nat)
    requires 0 < p && InPass(p, x, y) && dx < DivX(p) - OffX(p) && dy < DivY(p) - OffY(p) && dx + dy > 0
    ensures !DrawnBy(p, x + dx, y + dy)
  {
    PassesPartition(p, x, y);
    BlockResidues(p, x % 8, y % 8, dx, dy);
    hide InPass, Adam7, DrawnBy, DivX, DivY, OffX, OffY;
    ResidueOfSum(x, dx);
    ResidueOfSum(y, dy);
    DrawnByIs(p, x + dx, y + dy);
  }

  lemma EarlierBehind(p: Pass, x: nat, y: nat)
    requires 0 < p && InPass(p, x, y)
    ensures DrawnBy(p, x + (DivX(p) - OffX(p)), y) && DrawnBy(p, x, y + (DivY(p) - OffY(p)))
  {
    PassesPartition(p, x, y);
    BehindBlock(p, x % 8, y % 8);
    assert DivX(p) > OffX(p) && DivY(p) > OffY(p);
    hide InPass, Adam7, DrawnBy, DivX, DivY, OffX, OffY;
    ResidueOfSum(x, DivX(p) - OffX(p));
    ResidueOfSum(y, DivY(p) - OffY(p));
    DrawnByIs(p, x + (DivX(p) - OffX(p)), y);
    DrawnByIs(p, x, y + (DivY(p) - OffY(p)));
  }

  /** The block drawn for a pixel shows no pixel already drawn but its own, and grows until it meets one, or the
      edge of the image. */
  lemma BlocksFillIn(h: Header, p: Pass, x: nat, y: nat, rgba: seq<byte>)
    requires 0 < p && InPass(p, x, y) && x < h.width && y < h.height
    ensures var d := DrawAt(h, p, x, y, rgba);
            && (forall u, v | x <= u < x + d.w && y <= v < y + d.h && (u > x || v > y) :: !DrawnBy(p, u, v))
            && (x + d.w == h.width || DrawnBy(p, x + d.w, y)) && (y + d.h == h.height || DrawnBy(p, x, y + d.h))
  {
    var d := DrawAt(h, p, x, y, rgba);
    assert DivX(p) > OffX(p) && DivY(p) > OffY(p);
    hide InPass, DrawnBy, DivX, DivY, OffX, OffY;
    forall u, v | x <= u < x + d.w && y <= v < y + d.h && (u > x || v > y)
      ensures !DrawnBy(p, u, v)
    {
      LaterInside(p, x, y, u - x, v - y);
    }
    EarlierBehind(p, x, y);
  }

  lemma {:induction false} PassesHoldingIs(p: Pass, x: nat, y: nat)
    ensures p > 0 ==> PassesHolding(p, x, y) == One(p <= Adam7(x % 8, y % 8))
    ensures p == 0 ==> PassesHolding(p, x, y) == 1
    decreases 7 - p
  {
    PassesPartition(p, x, y);
    if !LastPass(p) {
      PassesHoldingIs(p + 1, x, y);
    }
  }

  lemma {:induction false} CountPasses(h: Header, pixels: Pixels, p: Pass, x: nat, y: nat)
    ensures CountAt(Draws(h, pixels, p), x, y) == (if x < h.width && y < h.height then PassesHolding(p, x, y) else 0)
    decreases 7 - p
  {
    CountPass(h, pixels, p, x, y);
    if !LastPass(p) {
      CountPasses(h, pixels, p + 1, x, y);
      CountConcat(PassDraws(h, pixels, p), Draws(h, pixels, p + 1), x, y);
    }
  }

  /** A draw shows the pixel it stands on, inside the image. */
  ghost predicate TrueDraws(h: Header, c: Colors, img: Image, draws: seq<Draw>)
    requires LegalHeader(h) && ColorsFit(h, c)
  {
    forall d | d in draws :: d.x < h.width && d.y < h.height && d.rgba == Paint(h, c, img(d.x, d.y))
  }

  lemma {:induction false} RowsAreTrue(h: Header, c: Colors, img: Image, p: Pass, r: nat)
    requires LegalHeader(h) && ColorsFit(h, c)
    ensures TrueDraws(h, c, img, RowsDraws(h, PixelsOf(h, c, img), p, r))
    decreases PassH(h, p) - r
  {
    hide TrueDraws, PixelsOf, RowDraws, PassH;
    if r < PassH(h, p) {
      RowIsTrue(h, c, img, p, r);
      RowsAreTrue(h, c, img, p, r + 1);
      TrueTogether(h, c, img, RowDraws(h, PixelsOf(h, c, img), p, r), RowsDraws(h, PixelsOf(h, c, img), p, r + 1));
    } else {
      TrueTogether(h, c, img, [], []);
    }
  }

  lemma TrueTogether(h: Header, c: Colors, img: Image, a: seq<Draw>, b: seq<Draw>)
    requires LegalHeader(h) && ColorsFit(h, c)
    ensures TrueDraws(h, c, img, [])
    ensures TrueDraws(h, c, img, a) && TrueDraws(h, c, img, b) ==> TrueDraws(h, c, img, a + b)
  {
    hide Paint, LegalHeader, ColorsFit;
  }

  lemma RowIsTrue(h: Header, c: Colors, img: Image, p: Pass, r: nat)
    requires LegalHeader(h) && ColorsFit(h, c) && r < PassH(h, p)
    ensures TrueDraws(h, c, img, RowDraws(h, PixelsOf(h, c, img), p, r))
  {
    hide Paint, PassW, PixelX, PixelY;
    RowVisible(h, p, r);
    var draws := RowDraws(h, PixelsOf(h, c, img), p, r);
    forall j: nat | j < |draws|
      ensures draws[j].x < h.width && draws[j].y < h.height && draws[j].rgba == Paint(h, c, img(draws[j].x, draws[j].y))
    {
      PixelVisible(h, p, j);
      assert draws[j] == DrawAt(h, p, PixelX(p, j), PixelY(p, r), PixelsOf(h, c, img)(p, r)(j));
    }
  }

  lemma PassIsTrue(h: Header, c: Colors, img: Image, p: Pass)
    requires LegalHeader(h) && ColorsFit(h, c)
    ensures TrueDraws(h, c, img, PassDraws(h, PixelsOf(h, c, img), p))
  {
    hide TrueDraws, PixelsOf, RowsDraws;
    RowsAreTrue(h, c, img, p, 0);
    TrueTogether(h, c, img, [], []);
  }

  lemma {:induction false} DrawsAreTrue(h: Header, c: Colors, img: Image, p: Pass)
    requires LegalHeader(h) && ColorsFit(h, c)
    ensures TrueDraws(h, c, img, Draws(h, PixelsOf(h, c, img), p))
    decreases 7 - p
  {
    hide TrueDraws, PixelsOf, PassDraws;
    PassIsTrue(h, c, img, p);
    if !LastPass(p) {
      DrawsAreTrue(h, c, img, p + 1);
      TrueTogether(h, c, img, PassDraws(h, PixelsOf(h, c, img), p), Draws(h, PixelsOf(h, c, img), p + 1));
    }
  }

  /** Whatever the calls: no failure, every pixel of the image drawn once, each with its own colour, and nothing
      else. */
  lemma EveryPixelOnce(h: Header, c: Colors, img: Image, filters: Filters, calls: seq<seq<byte>>, extra: seq<byte>)
    requires Decodable(h, c, img) && Flatten(calls) == Serialise(h, img, filters) + extra
    ensures var t := RunAll(h, PainterOf(h, c), Init(h), calls);
            && !t.failed && TrueDraws(h, c, img, t.draws)
            && forall x: nat, y: nat :: CountAt(t.draws, x, y) == One(x < h.width && y < h.height)
  {
    DecodesInAnyCalls(h, c, img, filters, calls, extra);
    DrawsAreTrue(h, c, img, FirstPass(h));
    forall x: nat, y: nat
      ensures CountAt(Draws(h, PixelsOf(h, c, img), FirstPass(h)), x, y) == One(x < h.width && y < h.height)
    {
      CountPasses(h, PixelsOf(h, c, img), FirstPass(h), x, y);
      PassesHoldingIs(FirstPass(h), x, y);
    }
  }
}
