/** Colour conversion of one pixel, as pngle_draw_pixels does it before the callback. */
module PngColors {
  import opened Basics
  import opened PngFormat

  /** The palette and transparency tables gathered from the PLTE and tRNS chunks, and the table set up for a gAMA
      chunk; [] is no such table. */
  datatype Colors = Colors(nPalettes: nat, palette: seq<byte>, nTrans: nat, trans: seq<byte>, gamma: seq<byte>)

  datatype Rgba = OutOfRange | Rgba(bytes: seq<byte>)

  /** What chunk parsing establishes about the tables before any pixel is drawn. */
  predicate ColorsFit(h: Header, c: Colors) {
    && 3 * c.nPalettes <= |c.palette|
    && (h.colorType == 3 ==> c.nTrans <= |c.trans|)
    && (h.colorType == 0 && c.nTrans == 1 ==> |c.trans| >= 2)
    && (h.colorType == 2 && c.nTrans == 1 ==> |c.trans| >= 6)
  }

  function PixelMax(h: Header): (m: nat)
    requires LegalHeader(h)
    ensures m > 0
  {
    if h.colorType == 3 then 255 else MaxVal(h.depth)
  }

  /** Scaling a sample to 8 bits: round(v * 255 / m), kept in a uint8. */
  function Scale(v: nat, m: nat): byte
    requires m > 0
  {
    ((v * 255 + m / 2) / m) % 256
  }

  /** The result is the nearest 8-bit value, never truncated. */
  lemma ScaleNearest(v: nat, m: nat)
    requires m > 0 && v <= m
    ensures 2 * Abs(Scale(v, m) * m - v * 255) <= m
  {
    var n := v * 255 + m / 2;
    QuotientBelow(n, m, 256);
    Nearest(v, m, n / m, n % m);
  }

  lemma QuotientBelow(n: nat, m: nat, top: nat)
    requires m > 0 && n < top * m
    ensures n / m < top && n == (n / m) * m + n % m
  {
    DivMul(n, m);
    if n / m >= top {
      MulAtMost(top, n / m, m);
    }
  }

  lemma Nearest(v: nat, m: nat, q: nat, r: nat)
    requires v * 255 + m / 2 == q * m + r && r < m
    ensures 2 * Abs(q * m - v * 255) <= m
  {
    var p := q * m;
    assert p - v * 255 == m / 2 - r;
  }

  /** Up to 8 bits per sample nothing is lost: the sample can be read back. */
  lemma ScaleInvertible(depth: nat, v: nat)
    requires depth in {1, 2, 4, 8} && v <= MaxVal(depth)
    ensures Scale(v, MaxVal(depth)) == v * (255 / MaxVal(depth))
  {
    match depth
    case 1 => case 2 => case 4 => case 8 =>
  }

  predicate IsTransColor(c: Colors, v: seq<nat>, n: nat)
    requires n <= |v| && (c.nTrans == 1 ==> 2 * n <= |c.trans|)
  {
    c.nTrans == 1 && forall i | 0 <= i < n :: v[i] == c.trans[2 * i] as nat * 0x100 + c.trans[2 * i + 1]
  }

  /** The four channel values v[0..4] the callback's colour is scaled from. */
  function ChannelValues(h: Header, c: Colors, v: seq<nat>): seq<nat>
    requires LegalHeader(h) && ColorsFit(h, c) && |v| == Channels(h.colorType)
    requires h.colorType == 3 ==> v[0] < c.nPalettes
  {
    var m := PixelMax(h);
    match h.colorType
    case 3 => [c.palette[v[0] * 3], c.palette[v[0] * 3 + 1], c.palette[v[0] * 3 + 2],
               if v[0] < c.nTrans then c.trans[v[0]] else m]
    case 2 => [v[0], v[1], v[2], if IsTransColor(c, v, 3) then 0 else m]
    case 6 => [v[0], v[1], v[2], v[3]]
    case 4 => [v[0], v[0], v[0], v[1]]
    case 0 => [v[0], v[0], v[0], if IsTransColor(c, v, 1) then 0 else m]
  }

  /** The two bytes of each sample of a colour, as tRNS names one. */
  predicate NamesColour(b: seq<byte>, v: seq<nat>) {
    |b| == 2 * |v| && forall i | 0 <= i < |b| :: b[i] as nat == HalfSample(v, i)
  }

  /** What the channels mean: colours as stored, grey three times over, or a palette entry; alpha as stored, from
      the table of a palette, or opaque except for the one colour tRNS names. */
  lemma ChannelsMean(h: Header, c: Colors, v: seq<nat>)
    requires LegalHeader(h) && ColorsFit(h, c) && |v| == Channels(h.colorType)
      && (h.colorType == 3 ==> v[0] < c.nPalettes)
    requires forall i | 0 <= i < |v| :: v[i] < U16
    ensures var w := ChannelValues(h, c, v);
            && |w| == 4
            && (h.colorType in {2, 6} ==> w[..3] == v[..3])
            && (h.colorType in {0, 4} ==> w[0] == w[1] == w[2] == v[0])
            && (h.colorType == 3 ==> forall i | 0 <= i < 3 :: w[i] == c.palette[3 * v[0] + i])
            && (h.colorType in {4, 6} ==> w[3] == v[|v| - 1])
            && (h.colorType == 3 ==> w[3] == if v[0] < c.nTrans then c.trans[v[0]] else 255)
            && (h.colorType in {0, 2} && c.nTrans == 1 && |c.trans| == 2 * |v| ==>
                  w[3] == if NamesColour(c.trans, v) then 0 else MaxVal(h.depth))
            && (h.colorType in {0, 2} && c.nTrans != 1 ==> w[3] == MaxVal(h.depth))
  {
    if h.colorType in {0, 2} && c.nTrans == 1 && |c.trans| == 2 * |v| { TransNames(c, v); }
  }

  lemma SampleNamed(high: byte, low: byte, v: seq<nat>, i: nat)
    requires i < |v| && v[i] < U16
    ensures v[i] == high as nat * 0x100 + low
            <==> high as nat == HalfSample(v, 2 * i) && low as nat == HalfSample(v, 2 * i + 1)
  {
  }

  lemma TransNames(c: Colors, v: seq<nat>)
    requires c.nTrans == 1 && |c.trans| == 2 * |v| && forall i | 0 <= i < |v| :: v[i] < U16
    ensures IsTransColor(c, v, |v|) <==> NamesColour(c.trans, v)
  {
    hide HalfSample;
    forall i: nat | i < |v|
      ensures v[i] == c.trans[2 * i] as nat * 0x100 + c.trans[2 * i + 1]
              <==> (c.trans[2 * i] as nat == HalfSample(v, 2 * i)
                    && c.trans[2 * i + 1] as nat == HalfSample(v, 2 * i + 1))
    {
      SampleNamed(c.trans[2 * i], c.trans[2 * i + 1], v, i);
    }
    if IsTransColor(c, v, |v|) {
      forall i: nat | i < |c.trans| ensures c.trans[i] as nat == HalfSample(v, i) {
        var k := i / 2;
        assert v[k] == c.trans[2 * k] as nat * 0x100 + c.trans[2 * k + 1];
        assert i == 2 * k || i == 2 * k + 1;
      }
    }
  }

  /** Eight-bit colours reach the display as they are stored. */
  lemma EightBitsUnscaled(h: Header, c: Colors, v: seq<nat>)
    requires LegalHeader(h) && ColorsFit(h, c) && |v| == Channels(h.colorType)
      && (h.colorType == 3 ==> v[0] < c.nPalettes)
    requires (h.depth == 8 || h.colorType == 3) && c.gamma == [] && forall i | 0 <= i < |v| :: v[i] < 256
    ensures PixelRgba(h, c, v).Rgba? && |PixelRgba(h, c, v).bytes| == 4
    ensures forall i | 0 <= i < 4 :: PixelRgba(h, c, v).bytes[i] as nat == ChannelValues(h, c, v)[i]
  {
    var w := ChannelValues(h, c, v);
    forall i | 0 <= i < 4 ensures Scale(w[i], 255) as nat == w[i] {
      ScaleInvertible(8, w[i]);
    }
  }

  /** Colours by way of the gamma table, if there is one; alpha is scaled. */
  function Shade(gamma: seq<byte>, v: seq<nat>, m: nat): seq<byte>
    requires m > 0
  {
    seq(|v|, (i: nat) requires i < |v| => if i < 3 && v[i] < |gamma| then gamma[v[i]] else Scale(v[i], m))
  }

  function PixelRgba(h: Header, c: Colors, v: seq<nat>): Rgba
    requires LegalHeader(h) && ColorsFit(h, c) && |v| == Channels(h.colorType)
  {
    if h.colorType == 3 && v[0] >= c.nPalettes then OutOfRange
    else Rgba(Shade(c.gamma, ChannelValues(h, c, v), PixelMax(h)))
  }

  /** The colour of pixel k of a completed group of bytes. */
  type Painter = (seq<byte>, nat) -> Rgba

  function GroupRgba(h: Header, c: Colors, group: seq<byte>, k: nat): Rgba
    requires LegalHeader(h) && ColorsFit(h, c)
  {
    if |group| == Bpp(h) && k < GroupPixels(h) then
      SampleCount(h, group, k);
      PixelRgba(h, c, ReadSamples(h, group, k))
    else OutOfRange
  }

  lemma SampleCount(h: Header, group: seq<byte>, k: nat)
    requires LegalHeader(h) && |group| == Bpp(h) && k < GroupPixels(h)
    ensures |ReadSamples(h, group, k)| == Channels(h.colorType)
  {
    SizesOf(h);
  }

  lemma SamplesInRange(h: Header, group: seq<byte>, k: nat)
    requires LegalHeader(h) && |group| == Bpp(h) && k < GroupPixels(h)
    ensures forall i | 0 <= i < |ReadSamples(h, group, k)| :: ReadSamples(h, group, k)[i] <= MaxVal(h.depth)
  {
    hide Power;
    SizesOf(h);
    PlacesArePowersOfTwo(h, k);
  }

  /** Whatever bytes are decoded, a value looked up in a gamma table set up for the header lies inside it. */
  lemma TableCovers(h: Header, c: Colors, group: seq<byte>, k: nat)
    requires LegalHeader(h) && ColorsFit(h, c) && |group| == Bpp(h) && k < GroupPixels(h)
    requires |c.gamma| == PixelMax(h) + 1
    ensures match GroupRgba(h, c, group, k)
            case OutOfRange => true
            case Rgba(bytes) =>
              |ReadSamples(h, group, k)| == Channels(h.colorType)
              && (h.colorType == 3 ==> ReadSamples(h, group, k)[0] < c.nPalettes)
              && var v := ChannelValues(h, c, ReadSamples(h, group, k));
                 |bytes| == |v| == 4 && (forall i | 0 <= i < 3 :: v[i] < |c.gamma| && bytes[i] == c.gamma[v[i]])
                 && bytes[3] == Scale(v[3], PixelMax(h))
  {
    hide ReadSamples, SizesFit;
    SampleCount(h, group, k);
    SamplesInRange(h, group, k);
  }

  function PainterOf(h: Header, c: Colors): Painter
    requires LegalHeader(h) && ColorsFit(h, c)
  {
    (group: seq<byte>, k: nat) => GroupRgba(h, c, group, k)
  }
}

/**
 * The scanline decoder on plain rows: the state keeps the row being rebuilt and
 * the one above it in full, and takes one inflated byte at a time.
 */
module PngScan {
  import opened Basics
  import opened PngFormat
  import opened PngColors

  datatype Scan = Scan(
    pass: Pass,
    x: nat,
    y: nat,
    filter: int,       // -1 until the row's filter byte has been read
    prev: seq<byte>,   // the rebuilt row above, zeros for the first row of a pass
    cur: seq<byte>,    // the rebuilt bytes of this row so far
    draws: seq<Draw>,
    failed: bool)

  function StartPass(h: Header, p: Pass, draws: seq<Draw>): Scan {
    Scan(p, OffX(p), OffY(p), -1, seq(Stride(h, p), _ => 0), [], draws, false)
  }

  function Init(h: Header): Scan { StartPass(h, FirstPass(h), []) }

  /** Leave a finished row. */
  function NewRow(h: Header, s: Scan): Scan {
    if s.x >= h.width
    then s.(x := OffX(s.pass), y := Min(s.y + DivY(s.pass), h.height), filter := -1, prev := s.cur, cur := [])
    else s
  }

  predicate PassOver(h: Header, s: Scan) { s.x >= h.width || s.y >= h.height }

  predicate LastPass(p: Pass) { p == 0 || p == 7 }

  /** Move to where the next byte belongs, skipping finished rows and empty passes. */
  function Settle(h: Header, s: Scan): Scan
    decreases 7 - s.pass
  {
    var t := NewRow(h, s);
    if PassOver(h, t) && !LastPass(t.pass) then Settle(h, StartPass(h, t.pass + 1, t.draws).(failed := t.failed)) else t
  }

  predicate Done(h: Header, s: Scan) { PassOver(h, s) }

  /** The facts every reachable state keeps. */
  ghost predicate Inv(h: Header, s: Scan) {
    && LegalHeader(h)
    && -1 <= s.filter <= 4
    && |s.prev| == Stride(h, s.pass) && |s.cur| <= Stride(h, s.pass)
    && (s.filter < 0 ==> s.cur == [])
    && (!s.failed ==> s.x == ColumnAfter(h, s.pass, |s.cur|))
    && (s.failed ==> s.x <= ColumnAfter(h, s.pass, |s.cur|))
  }

  /** The column reached once n bytes of a row have been rebuilt. */
  function ColumnAfter(h: Header, p: Pass, n: nat): nat
    requires LegalHeader(h)
  {
    SizesOf(h);
    if n == 0 then OffX(p) else Min(PixelX(p, GroupStart(h, n / Bpp(h))), Max(h.width, OffX(p)))
  }

  /** Rebuild one byte from its left, upper and upper-left neighbours. */
  function Rebuild(h: Header, s: Scan, b: byte): byte
    requires s.filter >= 0
  {
    (b + Predict(s.filter, At(s.cur, |s.cur| - Bpp(h)), At(s.prev, |s.cur|), At(s.prev, |s.cur| - Bpp(h)))) % 256
  }

  /** Draw one pixel and move to the next column. */
  function DrawOne(h: Header, colour: Rgba, s: Scan): Scan {
    match colour
    case OutOfRange => s.(failed := true)
    case Rgba(bytes) =>
      s.(draws := s.draws + [DrawAt(h, s.pass, s.x, s.y, bytes)], x := Min(s.x + DivX(s.pass), h.width))
  }

  /** Draw pixels k and later of the group just completed. */
  function DrawFrom(h: Header, paint: Painter, s: Scan, group: seq<byte>, k: nat): Scan
    requires LegalHeader(h) && |group| == Bpp(h)
    decreases GroupPixels(h) - k
  {
    SizesOf(h);
    if k >= GroupPixels(h) || s.x >= h.width then s
    else
      var t := DrawOne(h, paint(group, k), s);
      if t.failed then t else DrawFrom(h, paint, t, group, k + 1)
  }

  /** Take a byte of row data. */
  function TakeByte(h: Header, paint: Painter, s: Scan, b: byte): Scan
    requires LegalHeader(h) && s.filter >= 0
  {
    SizesOf(h);
    var t := s.(cur := s.cur + [Rebuild(h, s, b)]);
    if |t.cur| % Bpp(h) == 0 && |t.cur| >= Bpp(h)
    then DrawFrom(h, paint, t, t.cur[|t.cur| - Bpp(h)..], 0) else t
  }

  /** One inflated byte. Once failed, or past the last row, bytes change nothing more. */
  function Step(h: Header, paint: Painter, s: Scan, b: byte): Scan
    requires LegalHeader(h)
  {
    if s.failed then s
    else
      var t := Settle(h, s);
      if Done(h, t) then t
      else if t.filter < 0 then (if b > 4 then t.(failed := true) else t.(filter := b))
      else TakeByte(h, paint, t, b)
  }

  function Run(h: Header, paint: Painter, s: Scan, data: seq<byte>): Scan
    requires LegalHeader(h)
    decreases |data|
  {
    if data == [] then s else Run(h, paint, Step(h, paint, s, data[0]), data[1..])
  }

  lemma RunNothing(h: Header, paint: Painter, s: Scan)
    requires LegalHeader(h)
    ensures Run(h, paint, s, []) == s
  {
  }

  /** A failed scan draws nothing more. */
  lemma {:induction false} FailedStays(h: Header, paint: Painter, s: Scan, data: seq<byte>)
    requires LegalHeader(h) && s.failed
    ensures Run(h, paint, s, data) == s
    decreases |data|
  {
    if data != [] { FailedStays(h, paint, s, data[1..]); }
  }

  /** How the stream is cut into calls does not matter. */
  lemma {:induction false} RunConcat(h: Header, paint: Painter, s: Scan, a: seq<byte>, b: seq<byte>)
    requires LegalHeader(h)
    ensures Run(h, paint, s, a + b) == Run(h, paint, Run(h, paint, s, a), b)
    decreases |a|
  {
    if a == [] {
      assert a + b == b;
    } else {
      assert (a + b)[0] == a[0] && (a + b)[1..] == a[1..] + b;
      RunConcat(h, paint, Step(h, paint, s, a[0]), a[1..], b);
    }
  }

  function RunAll(h: Header, paint: Painter, s: Scan, calls: seq<seq<byte>>): Scan
    requires LegalHeader(h)
    decreases |calls|
  {
    if calls == [] then s else RunAll(h, paint, Run(h, paint, s, calls[0]), calls[1..])
  }

  lemma {:induction false} AnyCalls(h: Header, paint: Painter, s: Scan, calls: seq<seq<byte>>)
    requires LegalHeader(h)
    ensures RunAll(h, paint, s, calls) == Run(h, paint, s, Flatten(calls))
    decreases |calls|
  {
    if calls != [] {
      RunConcat(h, paint, s, calls[0], Flatten(calls[1..]));
      AnyCalls(h, paint, Run(h, paint, s, calls[0]), calls[1..]);
    }
  }

  /** A row ends exactly when its stride has been rebuilt, never earlier and never later. */
  lemma RowEnd(h: Header, p: Pass, n: nat)
    requires LegalHeader(h) && n <= Stride(h, p)
    ensures OffX(p) < h.width ==> (ColumnAfter(h, p, n) >= h.width <==> n == Stride(h, p))
    ensures OffX(p) >= h.width ==> Stride(h, p) == 0 && ColumnAfter(h, p, n) == OffX(p)
  {
    hide Stride, Bpp, PassW, PixelX, GroupStart, GroupPixels, LegalHeader;
    ColumnInside(h, p, 0);
    StartOfRow(h, p);
    if n > 0 {
      ColumnInside(h, p, n / Bpp(h));
      WholeGroups(h, p, n);
    }
  }

  /** The column of group g is inside the row exactly when its bytes are. */
  lemma ColumnInside(h: Header, p: Pass, g: nat)
    requires LegalHeader(h)
    ensures Bpp(h) > 0 && (PixelX(p, GroupStart(h, g)) < h.width <==> g * Bpp(h) < Stride(h, p))
  {
    hide Stride, Bpp, PixelX, GroupStart, GroupPixels, LegalHeader, OffX, DivX, Steps;
    GroupAgreement(h, p, g);
    GroupStartIs(h, g);
    PixelXIs(p, GroupStart(h, g));
    StepsExact(h.width, OffX(p), DivX(p), GroupStart(h, g));
  }

  lemma StartOfRow(h: Header, p: Pass)
    requires LegalHeader(h)
    ensures PixelX(p, GroupStart(h, 0)) == OffX(p)
  {
    hide OffX, DivX;
    GroupStartIs(h, 0);
    PixelXIs(p, 0);
  }

  /** Byte n's group starts inside the row if the byte is, and at its end if it is the end. */
  lemma WholeGroups(h: Header, p: Pass, n: nat)
    requires LegalHeader(h) && n <= Stride(h, p)
    ensures Bpp(h) > 0 && ((n / Bpp(h)) * Bpp(h) < Stride(h, p) <==> n < Stride(h, p))
  {
    hide Stride, Bpp, LegalHeader;
    GroupAgreement(h, p, 0);
    DivMul(n, Bpp(h));
  }

  /** Moving to the next byte's place keeps the invariant and ends at a place that takes a byte. */
  lemma SettleInv(h: Header, s: Scan)
    requires Inv(h, s) && !s.failed
    ensures Inv(h, Settle(h, s)) && !Settle(h, s).failed && Settle(h, s).draws == s.draws
    ensures PassOver(h, Settle(h, s)) ==> LastPass(Settle(h, s).pass)
    ensures !PassOver(h, Settle(h, s)) ==> |Settle(h, s).cur| < Stride(h, Settle(h, s).pass)
    decreases 7 - s.pass
  {
    RowEnd(h, s.pass, |s.cur|);
    var t := NewRow(h, s);
    RowEnd(h, t.pass, |t.cur|);
    if PassOver(h, t) && !LastPass(t.pass) {
      SettleInv(h, StartPass(h, t.pass + 1, t.draws));
    }
  }

  /** Whatever the pixels are, a group advances the column by its share of the row. */
  lemma {:induction false} DrawFromColumn(h: Header, paint: Painter, s: Scan, group: seq<byte>, k: nat, j: nat)
    requires LegalHeader(h) && |group| == Bpp(h) && k <= GroupPixels(h) && k <= j
    requires s.x == Min(PixelX(s.pass, j), h.width) && !s.failed
    ensures var t := DrawFrom(h, paint, s, group, k);
            && t.(x := s.x, draws := s.draws, failed := s.failed) == s
            && s.draws <= t.draws
            && t.x <= Min(PixelX(s.pass, j - k + GroupPixels(h)), h.width)
            && (!t.failed ==> t.x == Min(PixelX(s.pass, j - k + GroupPixels(h)), h.width))
    decreases GroupPixels(h) - k
  {
    SizesOf(h);
    PixelXMonotone(s.pass, j, j - k + GroupPixels(h));
    if k < GroupPixels(h) && s.x < h.width {
      var t := DrawOne(h, paint(group, k), s);
      if !t.failed {
        DrawFromColumn(h, paint, t, group, k + 1, j + 1);
      }
    }
  }

  lemma {:induction false} PixelXMonotone(p: Pass, i: nat, j: nat)
    requires i <= j
    ensures PixelX(p, i) <= PixelX(p, j)
  {
    if i < j {
      PixelXMonotone(p, i, j - 1);
    }
  }

  lemma ColumnSteps(h: Header, p: Pass, n: nat)
    requires LegalHeader(h) && OffX(p) < h.width
    ensures Bpp(h) > 0 && ColumnAfter(h, p, n) == Min(PixelX(p, GroupStart(h, n / Bpp(h))), h.width)
    ensures GroupStart(h, n / Bpp(h) + 1) == GroupStart(h, n / Bpp(h)) + GroupPixels(h)
  {
    SizesOf(h);
    PixelXMonotone(p, 0, GroupStart(h, n / Bpp(h)));
  }

  /** How the column moves when byte n of a row, part of the group at pixel j, has been rebuilt. */
  lemma ColumnStep(h: Header, p: Pass, n: nat) returns (j: nat)
    requires LegalHeader(h) && OffX(p) < h.width
    ensures Bpp(h) > 0 && j == GroupStart(h, n / Bpp(h))
    ensures ColumnAfter(h, p, n) == Min(PixelX(p, j), h.width)
    ensures (n + 1) % Bpp(h) != 0 ==> ColumnAfter(h, p, n + 1) == ColumnAfter(h, p, n)
    ensures (n + 1) % Bpp(h) == 0 ==>
      n + 1 >= Bpp(h) && ColumnAfter(h, p, n + 1) == Min(PixelX(p, j + GroupPixels(h)), h.width)
  {
    ColumnSteps(h, p, n);
    ColumnSteps(h, p, n + 1);
    NextGroup(n, Bpp(h));
    j := GroupStart(h, n / Bpp(h));
  }

  /** A byte that completes a group of pixels starting at pixel j of the row. */
  lemma TakeDrawing(h: Header, paint: Painter, s: Scan, b: byte, j: nat)
    requires LegalHeader(h) && !s.failed && s.filter >= 0
    requires Bpp(h) > 0 && (|s.cur| + 1) % Bpp(h) == 0 && |s.cur| + 1 >= Bpp(h)
    requires s.x == Min(PixelX(s.pass, j), h.width)
    ensures var r := TakeByte(h, paint, s, b);
            var x := Min(PixelX(s.pass, j + GroupPixels(h)), h.width);
            && r.(x := s.x, draws := s.draws, failed := s.failed) == s.(cur := s.cur + [Rebuild(h, s, b)])
            && r.x <= x && (!r.failed ==> r.x == x)
  {
    var t := s.(cur := s.cur + [Rebuild(h, s, b)]);
    var group := t.cur[|t.cur| - Bpp(h)..];
    DrawFromColumn(h, paint, t, group, 0, j);
    assert TakeByte(h, paint, s, b) == DrawFrom(h, paint, t, group, 0);
  }

  lemma TakeOnly(h: Header, paint: Painter, s: Scan, b: byte)
    requires LegalHeader(h) && s.filter >= 0 && Bpp(h) > 0 && (|s.cur| + 1) % Bpp(h) != 0
    ensures TakeByte(h, paint, s, b) == s.(cur := s.cur + [Rebuild(h, s, b)])
  {
    hide Rebuild, DrawFrom, Bpp;
  }

  lemma TakeByteInv(h: Header, paint: Painter, s: Scan, b: byte)
    requires Inv(h, s) && !s.failed && s.filter >= 0
    requires s.x < h.width && |s.cur| < Stride(h, s.pass)
    ensures Inv(h, TakeByte(h, paint, s, b))
  {
    hide Stride, PixelX, GroupStart, GroupPixels, Bpp, ColumnAfter, LegalHeader, Rebuild, TakeByte, OffX;
    assert OffX(s.pass) < h.width by { RowEnd(h, s.pass, 0); }
    var j := ColumnStep(h, s.pass, |s.cur|);
    if (|s.cur| + 1) % Bpp(h) == 0 {
      TakeDrawing(h, paint, s, b, j);
    } else {
      TakeOnly(h, paint, s, b);
    }
  }

  lemma NextGroup(n: nat, d: nat)
    requires d > 0
    ensures n / d >= 0
    ensures (n + 1) % d == 0 ==> (n + 1) / d == n / d + 1 && n + 1 >= d
    ensures (n + 1) % d != 0 ==> (n + 1) / d == n / d
  {
    var q, r := n / d, n % d;
    assert n == d * q + r;
    if r + 1 < d {
      assert n + 1 == q * d + (r + 1);
      DivOfShifted(q, d, r + 1);
    } else {
      assert n + 1 == (q + 1) * d + 0;
      DivOfShifted(q + 1, d, 0);
      MulAtMost(1, q + 1, d);
    }
  }

  /** Every reachable state keeps the invariant, so a row always takes its filter byte and its stride. */
  lemma StepInv(h: Header, paint: Painter, s: Scan, b: byte)
    requires Inv(h, s)
    ensures Inv(h, Step(h, paint, s, b))
  {
    if !s.failed {
      SettleInv(h, s);
      var t := Settle(h, s);
      RowEnd(h, t.pass, |t.cur|);
      if !Done(h, t) && t.filter >= 0 {
        TakeByteInv(h, paint, t, b);
      }
    }
  }
}
