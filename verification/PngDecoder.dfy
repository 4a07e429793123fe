/**
 * The scanline decoder as it runs: one ring of stride + 2 * bytes-per-pixel
 * cells holds what is still needed of the row above and of the current row.
 */
module PngDecoder {
  import opened Basics
  import opened PngFormat
  import opened PngColors
  import opened PngScan

  /** uint32 addition that saturates at top, overflow included. */
  function U32ClampAdd(a: nat, b: nat, top: nat): (r: nat)
    requires a < U32 && b < U32 && top < U32
    ensures r == Min(a + b, top)
  {
    var v := (a + b) % U32;
    if v < a then top
    else if v > top then top
    else v
  }

  /** The stride as set_interlace_pass computes it, every step in 32 bits. */
  function ScanlineStride(h: Header, p: Pass): (stride: nat)
    requires LegalHeader(h)
    ensures stride == Stride(h, p)
  {
    WidthFits(h);
    StepsAsComputed(h.width, p);
    StrideFits(h, p);
    BitsPerPixelIs(h);
    RowBitsIs(PassW(h, p), BitsPerPixel(h));
    var scanlinePixels := ((h.width - OffX(p) + DivX(p) - 1) % U32) / DivX(p);
    (scanlinePixels * (Channels(h.colorType) * h.depth) + 7) % U32 / 8
  }

  /** How a turn of the data loop ends: a byte taken, a pass begun, nothing further to do, an error. */
  datatype Turn = Took | NextPass | Ended | Failed

  class Decoder {
    const hdr: Header
    const colors: Colors

    var pass: Pass
    var drawingX: nat
    var drawingY: nat
    var filterType: int
    var ring: array<byte>
    var cidx: nat
    var remainToRender: int
    var error: bool
    var draws: seq<Draw>          // the draw callback's calls, in order

    ghost var prev: seq<byte>     // the row above, in full
    ghost var cur: seq<byte>      // the row so far, in full

    /** The decoder's state with its rows in full and no ring. */
    ghost function Abs(): Scan
      reads this
    {
      Scan(pass, drawingX, drawingY, filterType, prev, cur, draws, error)
    }

    /** The ring's cells, oldest first. */
    ghost function Window(): (w: seq<byte>)
      requires cidx < ring.Length
      reads this, ring
      ensures |w| == ring.Length
    {
      ring[cidx..] + ring[..cidx]
    }

    /** In a row: the rest of the row above, with zeros before it, then zeros and the row so far.
        Between rows: the row just finished, with zeros before it, ends the ring. */
    ghost predicate RingShowsRows()
      requires cidx < ring.Length
      reads this, ring
    {
      var d := Bpp(hdr);
      if filterType >= 0
      then |cur| <= |prev| && Window() == (Zeros(d) + prev)[|cur|..] + Zeros(d) + cur
      else d <= ring.Length && Window()[d..] == Zeros(d) + prev
    }

    ghost predicate Valid()
      reads this, ring
    {
      && Inv(hdr, Abs()) && ColorsFit(hdr, colors)
      && drawingX < U32 && drawingY < U32
      && ring.Length == Stride(hdr, pass) + 2 * Bpp(hdr) && Bpp(hdr) > 0 && cidx < ring.Length
      && RingShowsRows()
      && (!error ==> remainToRender == if |cur| % Bpp(hdr) == 0 then -1 else Bpp(hdr) - |cur| % Bpp(hdr))
    }

    constructor (h: Header, c: Colors)
      requires LegalHeader(h) && ColorsFit(h, c)
      ensures Valid() && fresh(ring) && hdr == h && colors == c && Abs() == Init(h)
    {
      hdr, colors := h, c;
      pass, drawingX, drawingY, filterType, cidx, remainToRender, error, draws := 0, 0, 0, -1, 0, -1, false, [];
      ring := new byte[0];
      new;
      SetInterlacePass(if h.interlace != 0 then 1 else 0);
    }

    method SetInterlacePass(p: Pass)
      requires LegalHeader(hdr) && ColorsFit(hdr, colors) && !error
      modifies this
      ensures Valid() && fresh(ring) && Abs() == StartPass(hdr, p, old(draws))
    {
      var scanlineStride := ScanlineStride(hdr, p);
      pass := p;
      ring := new byte[scanlineStride + Bpp(hdr) * 2](_ => 0);
      drawingX, drawingY, filterType := OffX(p), OffY(p), -1;
      cidx, remainToRender := 0, -1;
      prev, cur := Zeros(Stride(hdr, p)), [];
      StartIsValid(p);
    }

    lemma StartIsValid(p: Pass)
      requires LegalHeader(hdr) && ColorsFit(hdr, colors)
      requires Abs() == StartPass(hdr, p, draws) && cidx == 0 && remainToRender == -1
      requires ring.Length == Stride(hdr, p) + 2 * Bpp(hdr) && forall i | 0 <= i < ring.Length :: ring[i] == 0
      ensures Valid()
    {
      SizesOf(hdr);
      assert Window() == Zeros(ring.Length);
      assert RingShowsRows();
    }

    method RingbufPush(value: byte)
      requires cidx < ring.Length
      modifies ring, this`cidx
      ensures cidx < ring.Length && Window() == old(Window())[1..] + [value]
    {
      ghost var was, at := ring[..], cidx;
      PushRotates(was, at, value);
      ModOnce(cidx + 1, ring.Length);
      ring[cidx] := value;
      cidx := (cidx + 1) % ring.Length;
      assert ring[..] == was[at := value];
      assert Window() == ring[..][cidx..] + ring[..][..cidx];
    }

    lemma WindowAt(k: nat)
      requires cidx < ring.Length && k < ring.Length
      ensures ring[(cidx + k) % ring.Length] == Window()[k]
    {
      ModOnce(cidx + k, ring.Length);
    }

    /** The ring cells from index xidx on hold the bytes of a completed group. */
    ghost predicate GroupAt(xidx: nat, group: seq<byte>)
      reads this, ring
    {
      xidx < ring.Length && |group| == Bpp(hdr) <= ring.Length
      && forall k: nat | k < |group| :: ring[(xidx + k) % ring.Length] == group[k]
    }

    method GetValue(ridx: nat, bitcount: nat, depth: nat) returns (v: nat, ridx': nat, bitcount': nat)
      requires ridx < ring.Length && depth in {1, 2, 4, 8, 16}
      requires depth < 8 ==> bitcount >= 8 || bitcount + depth <= 8
      ensures depth < 8 && bitcount < 8 ==> ridx' == ridx && bitcount' == bitcount + depth
                                            && Power(2, 8 - bitcount') > 0
                                            && v == (ring[ridx] / Power(2, 8 - bitcount')) % (MaxVal(depth) + 1)
      ensures depth < 8 && bitcount >= 8 ==> ridx' == (ridx + 1) % ring.Length && bitcount' == depth
                                             && Power(2, 8 - depth) > 0
                                             && v == (ring[ridx'] / Power(2, 8 - depth)) % (MaxVal(depth) + 1)
      ensures depth == 8 ==> v == ring[ridx] && ridx' == (ridx + 1) % ring.Length
      ensures depth == 16 ==> v == ring[ridx] as nat * 0x100 + ring[(ridx + 1) % ring.Length]
                              && ridx' == ((ridx + 1) % ring.Length + 1) % ring.Length
    {
      ridx', bitcount' := ridx, bitcount;
      match depth {
        case 8 =>
          v := ring[ridx'];
          ridx' := (ridx' + 1) % ring.Length;
        case 16 =>
          v := ring[ridx'];
          ridx' := (ridx' + 1) % ring.Length;
          v := v * 0x100 + ring[ridx'];
          ridx' := (ridx' + 1) % ring.Length;
        case _ =>
          if bitcount' >= 8 {
            bitcount' := 0;
            ridx' := (ridx' + 1) % ring.Length;
          }
          bitcount' := bitcount' + depth;
          var mask := MaxVal(depth);
          var shift := 8 - bitcount';
          PowerPositive(2, shift);
          v := (ring[ridx'] / Power(2, shift)) % (mask + 1);
      }
    }

    /** Where the c-th sample of a pixel is read: below 8 bits the cursor stays on the group's one byte. */
    ghost function CursorAt(xidx: nat, c: nat): nat
      requires ring.Length > 0
      reads this`ring
    {
      if hdr.depth < 8 then xidx else if hdr.depth == 8 then (xidx + c) % ring.Length else (xidx + 2 * c) % ring.Length
    }

    /** Sample c of pixel k of the group at xidx. */
    method GetSample(ghost xidx: nat, ridx: nat, bitcount: nat, ghost group: seq<byte>, ghost k: nat, ghost c: nat)
      returns (v: nat, ridx': nat, bitcount': nat)
      requires LegalHeader(hdr) && GroupAt(xidx, group) && k < GroupPixels(hdr) && c < |ReadSamples(hdr, group, k)|
      requires ridx == CursorAt(xidx, c) && (hdr.depth < 8 ==> c == 0 && bitcount == k * hdr.depth)
      ensures v == ReadSamples(hdr, group, k)[c] && ridx' < ring.Length && ridx' == CursorAt(xidx, c + 1)
      ensures hdr.depth < 8 ==> bitcount' == (k + 1) * hdr.depth
    {
      hide Power, SizesFit, ReadSamples, MaxVal;
      SizesOf(hdr);
      SampleIs(hdr, group, k, c);
      ModOnce(ridx, ring.Length);
      v, ridx', bitcount' := GetValue(ridx, bitcount, hdr.depth);
      if hdr.depth == 8 {
        NextIndex(xidx, c, ring.Length);
      } else if hdr.depth == 16 {
        NextIndex(xidx, 2 * c, ring.Length);
        NextIndex(xidx, 2 * c + 1, ring.Length);
      }
    }

    /** The samples of pixel k of the group at xidx, one per channel. */
    method GetPixel(xidx: nat, ridx: nat, bitcount: nat, ghost group: seq<byte>, ghost k: nat)
      returns (v: seq<nat>, ridx': nat, bitcount': nat)
      requires LegalHeader(hdr) && GroupAt(xidx, group) && k < GroupPixels(hdr)
      requires ridx == xidx && bitcount == k * hdr.depth
      ensures v == ReadSamples(hdr, group, k)
      ensures hdr.depth < 8 ==> ridx' == xidx && bitcount' == (k + 1) * hdr.depth
    {
      hide ReadSamples, SizesFit;
      SampleCount(hdr, group, k);
      SizesOf(hdr);
      v, ridx', bitcount' := [], ridx, bitcount;
      ModOnce(xidx, ring.Length);
      for c := 0 to Channels(hdr.colorType)
        invariant v == ReadSamples(hdr, group, k)[..c] && ridx' < ring.Length && ridx' == CursorAt(xidx, c)
        invariant hdr.depth < 8 ==> bitcount' == (k + c) * hdr.depth
      {
        var value;
        value, ridx', bitcount' := GetSample(xidx, ridx', bitcount', group, k, c);
        v := v + [value];
      }
    }

    /** Does the pixel have the one colour that tRNS makes transparent? */
    method HasTransColor(value: seq<nat>, n: nat) returns (r: bool)
      requires n <= |value| && (colors.nTrans == 1 ==> 2 * n <= |colors.trans|)
      ensures r == IsTransColor(colors, value, n)
    {
      if colors.nTrans != 1 { return false; }
      for i := 0 to n
        invariant forall j | 0 <= j < i :: value[j] == colors.trans[2 * j] as nat * 0x100 + colors.trans[2 * j + 1]
      {
        if value[i] != colors.trans[2 * i] as nat * 0x100 + colors.trans[2 * i + 1] { return false; }
      }
      return true;
    }

    /** The samples turned into red, green, blue and alpha by the bits of the colour type: 1 palette, 2 colour,
        4 alpha. The result is what the table of colour types says. */
    method Convert(samples: seq<nat>) returns (ok: bool, v: seq<nat>)
      requires LegalHeader(hdr) && ColorsFit(hdr, colors) && |samples| == Channels(hdr.colorType)
      ensures ok == (hdr.colorType == 3 ==> samples[0] < colors.nPalettes)
      ensures ok ==> v == ChannelValues(hdr, colors, samples)
    {
      hide SizesFit;
      var indexed, color, alpha := hdr.colorType % 2 == 1, hdr.colorType / 2 % 2 == 1, hdr.colorType / 4 % 2 == 1;
      var maxval := PixelMax(hdr);
      v := samples + seq(4 - |samples|, _ => 0);
      if color {
        if indexed {
          var pidx := v[0];
          if pidx >= colors.nPalettes { return false, v; }
          v := v[0 := colors.palette[pidx * 3]][1 := colors.palette[pidx * 3 + 1]][2 := colors.palette[pidx * 3 + 2]];
          v := v[3 := if pidx < colors.nTrans then colors.trans[pidx] else maxval];
        } else if !alpha {
          var clear := HasTransColor(v, 3);
          v := v[3 := if clear then 0 else maxval];
        }
      } else {
        if alpha {
          v := v[3 := v[1]];
        } else {
          var clear := HasTransColor(v, 1);
          v := v[3 := if clear then 0 else maxval];
        }
        v := v[2 := v[0]][1 := v[0]];
      }
      return true, v;
    }

    /** Convert a pixel's samples and hand it to the callback; false when its palette index is out of range. */
    method DrawPixel(samples: seq<nat>) returns (ok: bool)
      requires LegalHeader(hdr) && ColorsFit(hdr, colors) && !error && drawingX < U32
        && |samples| == Channels(hdr.colorType)
      modifies this`drawingX, this`draws, this`error
      ensures drawingX < U32 && ok == !error
      ensures Abs() == DrawOne(hdr, PixelRgba(hdr, colors, samples), old(Abs()))
    {
      hide ChannelValues;
      WidthFits(hdr);
      var v;
      ok, v := Convert(samples);
      if !ok {
        error := true;
        return;
      }
      draws := draws + [DrawAt(hdr, pass, drawingX, drawingY, Shade(colors.gamma, v, PixelMax(hdr)))];
      drawingX := U32ClampAdd(drawingX, DivX(pass), hdr.width);
    }

    /** Draw the pixels whose bytes the ring holds from xidx on. */
    method DrawPixels(xidx: nat, ghost group: seq<byte>) returns (ok: bool)
      requires LegalHeader(hdr) && ColorsFit(hdr, colors) && GroupAt(xidx, group) && !error
      requires drawingX < U32
      modifies this`drawingX, this`draws, this`error
      ensures drawingX < U32 && ok == !error
      ensures Abs() == DrawFrom(hdr, PainterOf(hdr, colors), old(Abs()), group, 0)
    {
      hide PixelRgba, ReadSamples, Bpp;
      SizesOf(hdr);
      WidthFits(hdr);
      var nPixels := if hdr.depth == 16 then 1 else 8 / hdr.depth;
      var ridx, bitcount := xidx, 0;
      ghost var k := 0;
      while nPixels > 0 && drawingX < hdr.width
        invariant 0 <= nPixels && k + nPixels == GroupPixels(hdr) && !error && drawingX < U32
        invariant nPixels > 0 ==> ridx == xidx && bitcount == k * hdr.depth
        invariant DrawFrom(hdr, PainterOf(hdr, colors), Abs(), group, k)
               == DrawFrom(hdr, PainterOf(hdr, colors), old(Abs()), group, 0)
        decreases nPixels
      {
        nPixels := nPixels - 1;
        var v;
        v, ridx, bitcount := GetPixel(xidx, ridx, bitcount, group, k);
        SampleCount(hdr, group, k);
        ok := DrawPixel(v);
        if !ok {
          return;
        }
        k := k + 1;
      }
      return true;
    }

    /** The ring holds the neighbours of the next byte: upper left at cidx, above and left a pixel away. */
    lemma Neighbours()
      requires Valid() && filterType >= 0 && |cur| < |prev|
      ensures ring[cidx] == At(prev, |cur| - Bpp(hdr))
      ensures ring[(cidx + Bpp(hdr)) % ring.Length] == At(prev, |cur|)
      ensures ring[(cidx + ring.Length - Bpp(hdr)) % ring.Length] == At(cur, |cur| - Bpp(hdr))
    {
      WindowAt(Bpp(hdr));
      WindowAt(ring.Length - Bpp(hdr));
      RowWindow(prev, cur, Bpp(hdr));
    }

    /** The last bytes pushed end the ring. */
    lemma LastGroup(group: seq<byte>)
      requires cidx < ring.Length && |group| == Bpp(hdr) <= ring.Length && Bpp(hdr) > 0
      requires Window()[ring.Length - Bpp(hdr)..] == group
      ensures GroupAt((cidx + ring.Length - Bpp(hdr)) % ring.Length, group)
    {
      hide Bpp;
      var n, d := ring.Length, Bpp(hdr);
      ModOnce(cidx + n - d, n);
      forall k: nat | k < d ensures ring[((cidx + n - d) % n + k) % n] == group[k] {
        ModOnce((cidx + n - d) % n + k, n);
        ModOnce(cidx + (n - d + k), n);
        WindowAt(n - d + k);
      }
    }

    /** Add back what filter f subtracted. */
    static method Undo(f: nat, p: byte, left: byte, above: byte, corner: byte) returns (x: byte)
      ensures x == (p + Predict(f, left, above, corner)) % 256
      ensures f == 0 ==> x == p
      ensures f == 1 ==> p == Minus(x, left)
      ensures f == 2 ==> p == Minus(x, above)
      ensures f == 3 ==> p == Minus(x, HalfBelow(left as nat + above as nat))
      ensures f == 4 ==> p == Minus(x, Paeth(left, above, corner))
    {
      hide Minus, HalfBelow, Paeth;
      Undone(f, p, left, above, corner);
      var a: nat, b: nat := left, above;
      var sum: nat := p;
      match f {
        case 1 => sum := sum + a;
        case 2 => sum := sum + b;
        case 3 => sum := sum + (a + b) / 2;
        case 4 => sum := sum + Paeth(a, b, corner);
        case _ =>
      }
      x := sum % 256;
    }

    /** Reverse the row's filter on one byte, its neighbours taken from the ring. */
    method Unfilter(p: byte) returns (x: byte)
      requires Valid() && filterType >= 0 && |cur| < Stride(hdr, pass)
      ensures x == Rebuild(hdr, Abs(), p)
      ensures var left, above := At(cur, |cur| - Bpp(hdr)), At(prev, |cur|);
              && (filterType == 0 ==> x == p)
              && (filterType == 1 ==> p == Minus(x, left))
              && (filterType == 2 ==> p == Minus(x, above))
              && (filterType == 3 ==> p == Minus(x, HalfBelow(left as nat + above as nat)))
              && (filterType == 4 ==> p == Minus(x, Paeth(left, above, At(prev, |cur| - Bpp(hdr)))))
    {
      hide Minus, HalfBelow, Paeth, Predict;
      var bytesPerPixel := Bpp(hdr);
      var bidx := (cidx + bytesPerPixel) % ring.Length;
      var aidx := (cidx + ring.Length - bytesPerPixel) % ring.Length;
      Neighbours();
      x := Undo(filterType, p, ring[aidx], ring[bidx], ring[cidx]);
    }

    /** The rebuilt byte enters the ring and the upper-left neighbour no longer needed leaves it. */
    method PushRebuilt(x: byte)
      requires Valid() && filterType >= 0 && |cur| < Stride(hdr, pass)
      modifies ring, this`cidx, this`cur
      ensures cidx < ring.Length && RingShowsRows() && cur == old(cur) + [x]
    {
      PushedWindow(prev, cur, Bpp(hdr), x);
      RingbufPush(x);
      cur := cur + [x];
    }

    /** Render once a group of bytes is complete. */
    method Render() returns (ok: bool)
      requires LegalHeader(hdr) && ColorsFit(hdr, colors) && !error && drawingX < U32 && cidx < ring.Length
      requires Bpp(hdr) > 0 && Bpp(hdr) <= ring.Length && Bpp(hdr) <= |cur|
      requires Window()[ring.Length - Bpp(hdr)..] == cur[|cur| - Bpp(hdr)..]
      modifies this`drawingX, this`draws, this`error
      ensures drawingX < U32 && ok == !error
      ensures Abs() == DrawFrom(hdr, PainterOf(hdr, colors), old(Abs()), cur[|cur| - Bpp(hdr)..], 0)
    {
      hide Bpp, DrawFrom;
      ghost var group := cur[|cur| - Bpp(hdr)..];
      LastGroup(group);
      var xidx := (cidx + ring.Length - Bpp(hdr)) % ring.Length;
      ok := DrawPixels(xidx, group);
    }

    lemma WindowEndsWithRow()
      requires cidx < ring.Length && RingShowsRows() && filterType >= 0 && Bpp(hdr) <= |cur|
      ensures Bpp(hdr) <= ring.Length && Window()[ring.Length - Bpp(hdr)..] == cur[|cur| - Bpp(hdr)..]
    {
    }

    /** One byte of row data. */
    method OnRowByte(p: byte) returns (ok: bool)
      requires Valid() && !error && filterType >= 0 && drawingX < hdr.width && |cur| < Stride(hdr, pass)
      modifies ring, this`cidx, this`cur, this`remainToRender, this`drawingX, this`draws, this`error
      ensures Valid() && ok == !error
      ensures Abs() == TakeByte(hdr, PainterOf(hdr, colors), old(Abs()), p)
    {
      hide Stride, Bpp, ColumnAfter, TakeByte, Rebuild, DrawFrom;
      ghost var was := Abs();
      ByteCompletes(hdr, PainterOf(hdr, colors), was, p);
      var x := Unfilter(p);
      PushRebuilt(x);
      if remainToRender < 0 {
        remainToRender := Bpp(hdr);
      }
      remainToRender := remainToRender - 1;
      if remainToRender == 0 {
        ok := RenderGroup();
      } else {
        ok := true;
      }
      assert Abs() == TakeByte(hdr, PainterOf(hdr, colors), was, p);
      assert Inv(hdr, Abs()) by { TakeByteInv(hdr, PainterOf(hdr, colors), was, p); }
    }

    /** Render the group just completed and start counting the next one. */
    method RenderGroup() returns (ok: bool)
      requires LegalHeader(hdr) && ColorsFit(hdr, colors) && !error && drawingX < U32 && cidx < ring.Length
      requires RingShowsRows() && filterType >= 0 && 0 < Bpp(hdr) <= |cur|
      modifies this`remainToRender, this`drawingX, this`draws, this`error
      ensures RingShowsRows() && drawingX < U32 && ok == !error && (ok ==> remainToRender == -1)
      ensures Abs() == DrawFrom(hdr, PainterOf(hdr, colors), old(Abs()), cur[|cur| - Bpp(hdr)..], 0)
    {
      hide DrawFrom;
      WindowEndsWithRow();
      ok := Render();
      if ok {
        remainToRender := -1;
      }
    }

    /** Leave a finished row: what the ring ends with becomes the row above. */
    method BeginRow()
      requires Valid() && !error && drawingX >= hdr.width
      modifies this`drawingX, this`drawingY, this`filterType, this`prev, this`cur
      ensures Valid() && Abs() == NewRow(hdr, old(Abs()))
    {
      hide Stride, Bpp;
      assert drawingX < U32 && drawingY < U32 && DivY(pass) < U32;
      assert |cur| == Stride(hdr, pass) && hdr.height < U32 by {
        WidthFits(hdr);
        RowEnd(hdr, pass, |cur|);
      }
      assert Window()[Bpp(hdr)..] == Zeros(Bpp(hdr)) + cur && remainToRender == -1 by {
        GroupAgreement(hdr, pass, 0);
      }
      ghost var was := Abs();
      drawingX := OffX(pass);
      drawingY := U32ClampAdd(drawingY, DivY(pass), hdr.height);
      filterType := -1;
      prev, cur := cur, [];
      assert Abs() == NewRow(hdr, was);
      assert Inv(hdr, Abs()) by { NewRowInv(hdr, was); }
      assert RingShowsRows();
    }

    /** Push the zeros that stand left of a row. */
    method PushSentinels()
      requires cidx < ring.Length && Bpp(hdr) <= ring.Length
      modifies ring, this`cidx
      ensures cidx < ring.Length && Window() == old(Window())[Bpp(hdr)..] + Zeros(Bpp(hdr))
    {
      hide Bpp, Window;
      ghost var w := Window();
      for i := 0 to Bpp(hdr)
        invariant cidx < ring.Length && Window() == w[i..] + Zeros(i)
      {
        ZeroBehind(w, i);
        RingbufPush(0);
      }
    }

    /** Take a row's filter byte. */
    method BeginFilter(f: byte)
      requires Valid() && !error && filterType < 0 && f <= 4
      modifies ring, this`cidx, this`filterType
      ensures Valid() && Abs() == old(Abs()).(filter := f)
    {
      filterType := f;
      PushSentinels();
      assert Window() == (Zeros(Bpp(hdr)) + prev)[0..] + Zeros(Bpp(hdr)) + [];
      assert RingShowsRows();
    }

    /** One turn of the loop, the byte b being next. */
    method OneTurn(b: byte) returns (turn: Turn)
      requires Valid() && !error
      modifies this, ring
      ensures Valid() && (ring == old(ring) || fresh(ring)) && error == turn.Failed?
      ensures turn.NextPass? ==> pass > old(pass)
                                 && Step(hdr, PainterOf(hdr, colors), Abs(), b)
                                    == Step(hdr, PainterOf(hdr, colors), old(Abs()), b)
      ensures !turn.NextPass? ==> Abs() == Step(hdr, PainterOf(hdr, colors), old(Abs()), b)
      ensures turn.Ended? && hdr.width > 0 ==> drawingX < hdr.width && drawingY >= hdr.height && LastPass(pass)
      ensures hdr.width == 0 ==> (turn.NextPass? || turn.Ended?) && draws == old(draws)
    {
      hide Stride, PassW, Bpp, Step, TakeByte, ColumnAfter, LegalHeader;
      StepCases(hdr, PainterOf(hdr, colors), Abs(), b);
      if drawingX >= hdr.width {
        BeginRow();
      }
      if drawingX >= hdr.width || drawingY >= hdr.height {
        if pass == 0 || pass >= 7 {
          return Ended;
        }
        SetInterlacePass(pass + 1);
        return NextPass;
      }
      if filterType < 0 {
        if b > 4 {
          error := true;
          return Failed;
        }
        BeginFilter(b);
        return Took;
      }
      var ok := OnRowByte(b);
      return if ok then Took else Failed;
    }

    /** Decode inflated bytes. Whatever the ring does, the state with its rows in full steps byte by byte;
        an image without columns ends the call at its first byte. */
    method OnData(data: seq<byte>) returns (r: int)
      requires Valid() && !error
      modifies this, ring
      ensures Valid() && (ring == old(ring) || fresh(ring))
      ensures Abs() == Run(hdr, PainterOf(hdr, colors), old(Abs()), Read(data))
      ensures hdr.width == 0 ==> !error && draws == old(draws)
      ensures r == if error then -1 else |data|
    {
      hide Run, PainterOf, LegalHeader, Step;
      ghost var painter := PainterOf(hdr, colors);
      ghost var bytes := Read(data);
      var p := 0;
      assert bytes[0..] == bytes && data[..|data|] == data;
      while p < |data|
        invariant p <= |data| && Valid() && !error && (ring == old(ring) || fresh(ring))
        invariant p <= |bytes| && Run(hdr, painter, Abs(), bytes[p..]) == Run(hdr, painter, old(Abs()), bytes)
        invariant hdr.width == 0 ==> p == 0 && draws == old(draws)
        decreases |data| - p, 7 - pass
      {
        assert data[p] == bytes[p];
        RunHead(hdr, painter, Abs(), bytes, p);
        var turn := OneTurn(data[p]);
        match turn {
          case Took =>
            p := p + 1;
          case NextPass =>
            RunHead(hdr, painter, Abs(), bytes, p);
          case Ended =>
            if hdr.width > 0 {
              RunDone(hdr, painter, Abs(), bytes[p + 1..]);
            } else {
              assert bytes[p + 1..] == [];
              RunNothing(hdr, painter, Abs());
            }
            return |data|;
          case Failed =>
            FailedStays(hdr, painter, Abs(), bytes[p + 1..]);
            return -1;
        }
      }
      assert bytes[|bytes|..] == [];
      RunNothing(hdr, painter, Abs());
      return |data|;
    }

    /** The bytes of a call that are looked at: all of them, unless no row has any column. */
    ghost function Read(data: seq<byte>): seq<byte> { if hdr.width > 0 then data else data[..Min(1, |data|)] }
  }

  /** Adding back what was predicted undoes each of the encoder's subtractions. */
  lemma Undone(f: nat, p: byte, left: byte, above: byte, corner: byte)
    ensures var x := (p + Predict(f, left, above, corner)) % 256;
            && (f == 0 ==> x == p)
            && (f == 1 ==> p == Minus(x, left))
            && (f == 2 ==> p == Minus(x, above))
            && (f == 3 ==> p == Minus(x, HalfBelow(left as nat + above as nat)))
            && (f == 4 ==> p == Minus(x, Paeth(left, above, corner)))
  {
    var m := Predict(f, left, above, corner);
    AddedBack(p, m);
    if f == 3 { assert m == HalfBelow(left as nat + above as nat); }
    hide Paeth, HalfBelow;
  }

  lemma AddedBack(p: byte, m: nat)
    ensures Minus((p + m) % 256, m) == p
  {
  }

  /** One sample of a pixel, depth by depth. */
  lemma SampleIs(h: Header, group: seq<byte>, k: nat, c: nat)
    requires LegalHeader(h) && |group| == Bpp(h) && k < GroupPixels(h) && c < |ReadSamples(h, group, k)|
    ensures c < Channels(h.colorType) && (k + 1) * h.depth == k * h.depth + h.depth
    ensures h.depth < 8 ==> |group| == 1 && (k + 1) * h.depth <= 8 && Power(2, 8 - (k + 1) * h.depth) > 0
    ensures h.depth < 8 ==>
      ReadSamples(h, group, k)[c] == (group[0] / Power(2, 8 - (k + 1) * h.depth)) % (MaxVal(h.depth) + 1)
    ensures h.depth == 8 ==> c < |group| && ReadSamples(h, group, k)[c] == group[c]
    ensures h.depth == 16 ==>
      2 * c + 1 < |group| && ReadSamples(h, group, k)[c] == group[2 * c] as nat * 0x100 + group[2 * c + 1]
  {
    hide Power, SizesFit, MaxVal;
    SizesOf(h);
    PlacesArePowersOfTwo(h, k);
  }

  /** What a byte does, by where the decoder stands once a finished row is left. */
  lemma StepCases(h: Header, painter: Painter, s: Scan, b: byte)
    requires Inv(h, s) && !s.failed
    ensures var t, r := NewRow(h, s), Step(h, painter, s, b);
            && !t.failed && t.draws == s.draws && t.pass == s.pass
            && (t.x >= h.width ==> t.x == OffX(t.pass))
            && (if PassOver(h, t) then
                  if LastPass(t.pass) then r == t else r == Step(h, painter, StartPass(h, t.pass + 1, t.draws), b)
                else if t.filter < 0 then r == if b > 4 then t.(failed := true) else t.(filter := b)
                else r == TakeByte(h, painter, t, b) && |t.cur| < Stride(h, t.pass))
  {
    SettleInv(h, s);
  }

  lemma NewRowInv(h: Header, s: Scan)
    requires Inv(h, s) && !s.failed
    ensures Inv(h, NewRow(h, s))
  {
    RowEnd(h, s.pass, |s.cur|);
  }

  lemma RunHead(h: Header, painter: Painter, s: Scan, data: seq<byte>, p: nat)
    requires LegalHeader(h) && p < |data|
    ensures Run(h, painter, s, data[p..]) == Run(h, painter, Step(h, painter, s, data[p]), data[p + 1..])
  {
    assert data[p..][1..] == data[p + 1..];
  }

  lemma {:induction false} RunDone(h: Header, painter: Painter, s: Scan, rest: seq<byte>)
    requires LegalHeader(h) && !s.failed && s.x < h.width && s.y >= h.height && LastPass(s.pass)
    ensures Run(h, painter, s, rest) == s
    decreases |rest|
  {
    if rest != [] {
      RunDone(h, painter, s, rest[1..]);
    }
  }

  /** Overwriting the oldest cell and moving on drops it and appends the new one. */
  lemma PushRotates(was: seq<byte>, at: nat, value: byte)
    requires at < |was|
    ensures var r, next := was[at := value], if at + 1 < |was| then at + 1 else 0;
            r[next..] + r[..next] == (was[at..] + was[..at])[1..] + [value]
  {
    var r := was[at := value];
    if at + 1 < |was| {
      assert r[at + 1..] == was[at + 1..] && r[..at + 1] == was[..at] + [value];
      assert (was[at..] + was[..at])[1..] == was[at + 1..] + was[..at];
    } else {
      assert r[0..] == was[..at] + [value] && (was[at..] + was[..at])[1..] == was[..at];
    }
  }

  lemma ModOnce(a: nat, n: nat)
    requires n > 0 && a < 2 * n
    ensures a % n == if a < n then a else a - n
  {
    if a >= n {
      DivOfShifted(1, n, a - n);
    }
  }

  lemma NextIndex(x: nat, k: nat, n: nat)
    requires x < n && k < n
    ensures ((x + k) % n + 1) % n == (x + k + 1) % n
  {
    ModOnce(x + k, n);
    ModOnce((x + k) % n + 1, n);
    ModOnce(x + k + 1, n);
  }

  lemma ZeroBehind(w: seq<byte>, i: nat)
    requires i < |w|
    ensures (w[i..] + Zeros(i))[1..] + [0] == w[i + 1..] + Zeros(i + 1)
  {
  }

  /** Where the neighbours lie in the window of row bytes. */
  lemma RowWindow(prev: seq<byte>, cur: seq<byte>, d: nat)
    requires |cur| < |prev| && d > 0
    ensures var w := (Zeros(d) + prev)[|cur|..] + Zeros(d) + cur;
            && |w| == |prev| + 2 * d
            && w[0] == At(prev, |cur| - d) && w[d] == At(prev, |cur|) && w[|w| - d] == At(cur, |cur| - d)
  {
    var above := Zeros(d) + prev;
    var w := above[|cur|..] + Zeros(d) + cur;
    assert w[0] == above[|cur|];
    assert w[d] == above[|cur| + d] == prev[|cur|];
    assert w[|w| - d] == (Zeros(d) + cur)[|cur|];
  }

  /** Pushing the rebuilt byte drops the neighbour no longer needed. */
  lemma PushedWindow(prev: seq<byte>, cur: seq<byte>, d: nat, x: byte)
    requires |cur| < |prev|
    ensures var w := (Zeros(d) + prev)[|cur|..] + Zeros(d) + cur;
            w[1..] + [x] == (Zeros(d) + prev)[|cur| + 1..] + Zeros(d) + (cur + [x])
  {
  }

  /** Counting down from a pixel's bytes, the byte that completes a group is found, and only that one. */
  lemma ByteCompletes(h: Header, painter: Painter, s: Scan, p: byte)
    requires LegalHeader(h) && s.filter >= 0 && Bpp(h) > 0
    ensures var t := s.(cur := s.cur + [Rebuild(h, s, p)]);
            var left := (if |s.cur| % Bpp(h) == 0 then Bpp(h) else Bpp(h) - |s.cur| % Bpp(h)) - 1;
            if left == 0
            then |t.cur| % Bpp(h) == 0 && Bpp(h) <= |t.cur|
                 && TakeByte(h, painter, s, p) == DrawFrom(h, painter, t, t.cur[|t.cur| - Bpp(h)..], 0)
            else |t.cur| % Bpp(h) == |s.cur| % Bpp(h) + 1 && left == Bpp(h) - |t.cur| % Bpp(h)
                 && TakeByte(h, painter, s, p) == t
  {
    NextRemain(|s.cur|, Bpp(h));
  }

  lemma NextRemain(n: nat, d: nat)
    requires d > 0
    ensures n % d + 1 < d ==> (n + 1) % d == n % d + 1
    ensures n % d + 1 == d ==> (n + 1) % d == 0 && n + 1 >= d
  {
    NextGroup(n, d);
    DivMul(n, d);
    if n % d + 1 < d {
      DivOfShifted(n / d, d, n % d + 1);
    } else {
      DivOfShifted(n / d + 1, d, 0);
      MulAtMost(1, n / d + 1, d);
    }
  }

  lemma WidthFits(h: Header)
    requires LegalHeader(h)
    ensures h.width + 7 < U32 && h.height < U32
  {
    SizesOf(h);
    MulAtMost(1, Channels(h.colorType) * h.depth, h.width);
  }

  /** The stride's 32-bit arithmetic does not wrap. */
  lemma StrideFits(h: Header, p: Pass)
    requires LegalHeader(h)
    ensures PassW(h, p) * (Channels(h.colorType) * h.depth) + 7 < U32
  {
    StepsExact(h.width, OffX(p), DivX(p), h.width);
    MulAtMost(h.width, DivX(p) * h.width, 1);
    assert PassW(h, p) <= h.width;
    MulAtMost(PassW(h, p), h.width, Channels(h.colorType) * h.depth);
  }
}
