/**
 * What a PNG image is (RFC 2083): headers, the Adam7 passes, sample packing,
 * scanline filters, and the byte stream an encoder writes for an image.
 * This is the reference the decoder is proved against; no member here keeps
 * a ring buffer or any decoder state.
 */
module PngFormat {
  import opened Basics

  /** The IHDR fields that matter after the header has been accepted. */
  datatype Header = Header(
    width: nat, height: nat, depth: nat, colorType: nat,
    compression: nat, filter: nat, interlace: nat)

  /** One call of the draw callback: a w by h block whose corner is (x, y). */
  datatype Draw = Draw(x: nat, y: nat, w: nat, h: nat, rgba: seq<byte>)

  /** A byte stream put back together from its pieces. */
  function Flatten(pieces: seq<seq<byte>>): seq<byte> {
    if pieces == [] then [] else pieces[0] + Flatten(pieces[1..])
  }

  // ----- colour types and depths -----

  function Channels(colorType: nat): nat {
    match colorType
    case 0 => 1
    case 2 => 3
    case 3 => 1
    case 4 => 2
    case 6 => 4
    case _ => 0
  }

  predicate LegalDepth(colorType: nat, depth: nat) {
    match colorType
    case 0 => depth in {1, 2, 4, 8, 16}
    case 2 => depth in {8, 16}
    case 3 => depth in {1, 2, 4, 8}
    case 4 => depth in {8, 16}
    case 6 => depth in {8, 16}
    case _ => false
  }

  /** The bits of one row, rounded up, fit the 32-bit size arithmetic. */
  predicate SizesFit(h: Header) {
    h.width * (Channels(h.colorType) * h.depth) + 7 < U32 && h.height < U32
  }

  predicate LegalHeader(h: Header) {
    LegalDepth(h.colorType, h.depth) && SizesFit(h)
  }

  function MaxVal(depth: nat): (m: nat)
    requires depth in {1, 2, 4, 8, 16}
    ensures m > 0
  {
    match depth
    case 1 => 1
    case 2 => 3
    case 4 => 15
    case 8 => 255
    case 16 => 65535
  }

  // ----- Adam7 passes; pass 0 is the whole, non-interlaced image -----

  type Pass = p: nat | p < 8

  function OffX(p: Pass): nat { [0, 0, 4, 0, 2, 0, 1, 0][p] }
  function OffY(p: Pass): nat { [0, 0, 0, 4, 0, 2, 0, 1][p] }
  function DivX(p: Pass): (d: nat) ensures d > 0 { [1, 8, 8, 4, 4, 2, 2, 1][p] }
  function DivY(p: Pass): (d: nat) ensures d > 0 { [1, 8, 8, 8, 4, 4, 2, 2][p] }

  function FirstPass(h: Header): Pass { if h.interlace == 0 then 0 else 1 }

  /** Without interlacing there is one pass, and it is the image; with it there are seven. */
  lemma PassesOf(h: Header)
    ensures FirstPass(h) == if h.interlace == 0 then 0 else 1
    ensures OffX(0) == OffY(0) == 0 && DivX(0) == DivY(0) == 1
    ensures PassW(h, 0) == h.width && PassH(h, 0) == h.height
  {
    StepsExact(h.width, 0, 1, h.width);
    StepsExact(h.height, 0, 1, h.height);
    if h.width > 0 { StepsExact(h.width, 0, 1, h.width - 1); }
    if h.height > 0 { StepsExact(h.height, 0, 1, h.height - 1); }
  }

  /** How many of o, o + d, o + 2d, ... lie below n. */
  function Steps(n: nat, o: nat, d: nat): nat
    requires d > 0
    decreases if o < n then n - o else 0
  {
    if o < n then 1 + Steps(n, o + d, d) else 0
  }

  function PassW(h: Header, p: Pass): nat { Steps(h.width, OffX(p), DivX(p)) }
  function PassH(h: Header, p: Pass): nat { Steps(h.height, OffY(p), DivY(p)) }

  lemma {:induction false} StepsExact(n: nat, o: nat, d: nat, j: nat)
    requires d > 0
    ensures o + d * j < n <==> j < Steps(n, o, d)
    decreases j
  {
    if j > 0 {
      assert o + d * j == (o + d) + d * (j - 1);
      StepsExact(n, o + d, d, j - 1);
      assert d * (j - 1) >= 0;
    }
  }

  /** Counting agrees with dividing and rounding up. */
  lemma StepsCeil(n: nat, o: nat, d: nat)
    requires d > 0 && o < n
    ensures Steps(n, o, d) == (n - o + d - 1) / d
  {
    var m := n - o + d - 1;
    var q := m / d;
    DivMul(m, d);
    MulAtMost(1, q, d);
    assert d * q == q * d && d * (q - 1) == d * q - d;
    StepsExact(n, o, d, q);
    StepsExact(n, o, d, q - 1);
  }

  lemma DivMul(n: nat, d: nat)
    requires d > 0
    ensures n == (n / d) * d + n % d && n / d >= 0 && (n >= d ==> n / d >= 1)
  {
  }

  /** The count of set_interlace_pass, computed modulo 2^32, is right exactly when rounding up does not overflow. */
  lemma StepsAsComputed(n: nat, p: Pass)
    requires n < U32
    ensures ((n - OffX(p) + DivX(p) - 1) % U32) / DivX(p) == Steps(n, OffX(p), DivX(p))
            <==> n - OffX(p) + DivX(p) - 1 < U32
  {
    var m, d := n - OffX(p) + DivX(p) - 1, DivX(p);
    assert 0 <= m < U32 + 8 && d in {1, 2, 4, 8};
    if OffX(p) >= n {
      assert m < d;
    } else {
      StepsCeil(n, OffX(p), d);
      if m >= U32 {
        assert m % U32 == m - U32 < d;
        StepsExact(n, OffX(p), d, 0);
      }
    }
  }

  predicate InPass(p: Pass, x: nat, y: nat) {
    x >= OffX(p) && y >= OffY(p) && (x - OffX(p)) % DivX(p) == 0 && (y - OffY(p)) % DivY(p) == 0
  }

  // ----- row sizes -----

  /** The bits of w pixels, b bits each. */
  function RowBits(w: nat, b: nat): nat {
    if w == 0 then 0 else RowBits(w - 1, b) + b
  }

  lemma {:induction false} RowBitsIs(w: nat, b: nat)
    ensures RowBits(w, b) == w * b
  {
    if w > 0 {
      RowBitsIs(w - 1, b);
      assert w * b == (w - 1) * b + b;
    }
  }

  function BitsPerPixel(h: Header): nat {
    match h.depth
    case 1 => Channels(h.colorType)
    case 2 => Channels(h.colorType) * 2
    case 4 => Channels(h.colorType) * 4
    case 8 => Channels(h.colorType) * 8
    case 16 => Channels(h.colorType) * 16
    case _ => 0
  }

  lemma BitsPerPixelIs(h: Header)
    requires LegalHeader(h)
    ensures BitsPerPixel(h) == Channels(h.colorType) * h.depth
  {
  }

  function Bpp(h: Header): nat { (BitsPerPixel(h) + 7) / 8 }

  /** Pixels completed by one group of Bpp bytes. */
  function GroupPixels(h: Header): nat
    requires LegalHeader(h)
  {
    if h.depth == 16 then 1 else 8 / h.depth
  }

  function Stride(h: Header, p: Pass): nat { (RowBits(PassW(h, p), BitsPerPixel(h)) + 7) / 8 }

  lemma SizesOf(h: Header)
    requires LegalHeader(h)
    ensures 1 <= Bpp(h) <= 8 && 1 <= GroupPixels(h) <= 8
    ensures h.depth < 8 ==> Channels(h.colorType) == 1 && Bpp(h) == 1 && GroupPixels(h) * h.depth == 8
    ensures h.depth == 8 ==> Bpp(h) == Channels(h.colorType) && GroupPixels(h) == 1
    ensures h.depth == 16 ==> Bpp(h) == 2 * Channels(h.colorType) && GroupPixels(h) == 1
    ensures GroupPixels(h) > 1 ==> h.depth < 8
  {
  }

  /** Ceilings agree: a group starts inside the row exactly when its first pixel does. */
  lemma GroupAgreement(h: Header, p: Pass, g: nat)
    requires LegalHeader(h)
    ensures Bpp(h) > 0 && Stride(h, p) % Bpp(h) == 0
    ensures g * Bpp(h) < Stride(h, p) <==> g * GroupPixels(h) < PassW(h, p)
  {
    SizesOf(h);
    var w := PassW(h, p);
    RowBitsIs(w, BitsPerPixel(h));
    if h.depth >= 8 {
      assert BitsPerPixel(h) == 8 * Bpp(h);
      WholeByteCeil(w, Bpp(h), BitsPerPixel(h), g);
    } else {
      assert BitsPerPixel(h) == h.depth;
      SubByteCeil(w, h.depth, g);
    }
  }

  lemma WholeByteCeil(w: nat, c: nat, bits: nat, g: nat)
    requires c > 0 && bits == 8 * c
    ensures (w * bits + 7) / 8 == w * c && ((w * bits + 7) / 8) % c == 0
    ensures g * c < (w * bits + 7) / 8 <==> g < w
  {
    assert w * bits == 8 * (w * c);
    DivOfShifted(w, c, 0);
    if g < w { MulLess(g, w, c); } else { MulAtMost(w, g, c); }
  }

  lemma SubByteCeil(w: nat, d: nat, g: nat)
    requires d in {1, 2, 4}
    ensures g < (w * d + 7) / 8 <==> g * (8 / d) < w
  {
    if d == 1 {
    } else if d == 2 {
    } else {
    }
  }

  lemma MulLess(a: nat, b: nat, c: nat)
    requires a < b && c > 0
    ensures a * c < b * c
  {
    assert (b - a) * c > 0;
  }

  // ----- packing samples into bytes (RFC 2083 section 2.3) -----

  /** A pixel is its channels' samples; an image gives one for each (x, y).
      Columns at or beyond the width only fill the unused low bits of a row. */
  type Image = (nat, nat) -> seq<nat>

  ghost predicate ImageFor(h: Header, img: Image) {
    forall x, y :: SamplesFit(h, img(x, y))
  }

  predicate SamplesFit(h: Header, v: seq<nat>) {
    && |v| == Channels(h.colorType)
    && (LegalDepth(h.colorType, h.depth) ==> forall c | 0 <= c < |v| :: v[c] <= MaxVal(h.depth))
  }

  /** Leftmost pixel in the high-order bits, base 2^depth. */
  function PackBits(base: nat, v: seq<nat>): nat {
    if v == [] then 0 else PackBits(base, v[..|v| - 1]) * base + v[|v| - 1]
  }

  function PackPixel(depth: nat, v: seq<nat>): seq<nat> {
    if depth == 16 then seq(2 * |v|, (i: nat) requires i < 2 * |v| => HalfSample(v, i)) else v
  }

  /** Most significant byte first. */
  function HalfSample(v: seq<nat>, i: nat): nat
    requires i < 2 * |v|
  {
    if i % 2 == 0 then v[i / 2] / 256 else v[i / 2] % 256
  }

  /** The bytes that carry the pixels at xs, xs+dx, ... of row y. */
  function PackGroup(h: Header, img: Image, x: nat, dx: nat, y: nat): seq<nat>
    requires LegalHeader(h)
  {
    if h.depth < 8 then
      [PackBits(MaxVal(h.depth) + 1, FirstSamples(h, img, x, dx, y))]
    else
      PackPixel(h.depth, img(x, y))
  }

  function FirstSamples(h: Header, img: Image, x: nat, dx: nat, y: nat): seq<nat>
    requires LegalHeader(h)
  {
    seq(GroupPixels(h), (k: nat) => FirstSample(img(x + dx * k, y)))
  }

  function FirstSample(v: seq<nat>): nat { if v == [] then 0 else v[0] }

  lemma {:induction false} PackBitsBound(base: nat, v: seq<nat>)
    requires base > 0 && forall i | 0 <= i < |v| :: v[i] < base
    ensures PackBits(base, v) < Power(base, |v|)
  {
    if v != [] {
      PackBitsBound(base, v[..|v| - 1]);
      MulAtMost(PackBits(base, v[..|v| - 1]) + 1, Power(base, |v| - 1), base);
    }
  }

  function Power(base: nat, n: nat): nat {
    if n == 0 then 1 else Power(base, n - 1) * base
  }

  /** Sample k of a group's bytes, as the decoder will read it. */
  function ReadSamples(h: Header, group: seq<byte>, k: nat): seq<nat>
    requires LegalHeader(h) && |group| == Bpp(h) && k < GroupPixels(h)
  {
    SizesOf(h);
    PlacesArePowersOfTwo(h, k);
    if h.depth < 8 then [(group[0] / Power(2, 8 - (k + 1) * h.depth)) % (MaxVal(h.depth) + 1)]
    else if h.depth == 8 then group
    else seq(Channels(h.colorType), (c: nat) requires c < Channels(h.colorType) => JoinedSample(group, c))
  }

  function JoinedSample(group: seq<byte>, c: nat): nat
    requires 2 * c + 1 < |group|
  {
    group[2 * c] as nat * 256 + group[2 * c + 1]
  }

  lemma PackGroupBytes(h: Header, img: Image, x: nat, dx: nat, y: nat)
    requires LegalHeader(h) && ImageFor(h, img)
    ensures |PackGroup(h, img, x, dx, y)| == Bpp(h)
    ensures forall i | 0 <= i < Bpp(h) :: PackGroup(h, img, x, dx, y)[i] < 256
  {
    SizesOf(h);
    if h.depth < 8 {
      var v := FirstSamples(h, img, x, dx, y);
      forall k | 0 <= k < |v| ensures v[k] <= MaxVal(h.depth) {
        assert SamplesFit(h, img(x + dx * k, y));
      }
      PackBitsBound(MaxVal(h.depth) + 1, v);
      PowerOfGroup(h);
    } else {
      assert SamplesFit(h, img(x, y));
    }
  }

  lemma PowerOfGroup(h: Header)
    requires LegalHeader(h) && h.depth < 8
    ensures Power(MaxVal(h.depth) + 1, GroupPixels(h)) == 256
  {
    match h.depth
    case 1 => assert Power(2, 8) == 2 * Power(2, 7) == 4 * Power(2, 6) == 8 * Power(2, 5) == 16 * Power(2, 4);
    case 2 => assert Power(4, 4) == 4 * Power(4, 3) == 16 * Power(4, 2);
    case 4 => assert Power(16, 2) == 16 * Power(16, 1);
  }

  /** Reading a packed group gives back each of its pixels. */
  lemma ReadPacked(h: Header, img: Image, x: nat, dx: nat, y: nat, group: seq<byte>, k: nat)
    requires LegalHeader(h) && ImageFor(h, img) && k < GroupPixels(h)
    requires group == PackGroup(h, img, x, dx, y) && |group| == Bpp(h)
    ensures ReadSamples(h, group, k) == img(x + dx * k, y)
  {
    hide PackBits, Power, ReadSamples, PackPixel, Bpp;
    SizesOf(h);
    assert SamplesFit(h, img(x + dx * k, y));
    if h.depth < 8 {
      var v := FirstSamples(h, img, x, dx, y);
      forall i | 0 <= i < |v| ensures v[i] <= MaxVal(h.depth) {
        assert SamplesFit(h, img(x + dx * i, y));
      }
      ReadBits(h, v, group, k);
      assert img(x + dx * k, y) == [v[k]];
    } else {
      assert k == 0 && dx * k == 0;
      ReadBytes(h, img(x, y), group);
    }
  }

  lemma ReadBits(h: Header, v: seq<nat>, group: seq<byte>, k: nat)
    requires LegalHeader(h) && h.depth < 8 && k < GroupPixels(h) && |v| == GroupPixels(h) && |group| == Bpp(h)
    requires forall i | 0 <= i < |v| :: v[i] <= MaxVal(h.depth)
    requires group == [PackBits(MaxVal(h.depth) + 1, v)]
    ensures ReadSamples(h, group, k) == [v[k]]
  {
    hide PackBits, Power;
    DigitOfPacked(MaxVal(h.depth) + 1, v, k);
    PlacesArePowersOfTwo(h, k);
  }

  lemma ReadBytes(h: Header, v: seq<nat>, group: seq<byte>)
    requires LegalHeader(h) && h.depth >= 8 && |v| == Channels(h.colorType) && |group| == Bpp(h)
    requires group == PackPixel(h.depth, v)
    ensures ReadSamples(h, group, 0) == v
  {
    if h.depth == 16 {
      forall c | 0 <= c < |v| ensures JoinedSample(group, c) == v[c] {
        JoinedHalves(v, group, c);
      }
    }
  }

  lemma JoinedHalves(v: seq<nat>, group: seq<byte>, c: nat)
    requires |group| == 2 * |v| && c < |v|
    requires group[2 * c] == HalfSample(v, 2 * c) && group[2 * c + 1] == HalfSample(v, 2 * c + 1)
    ensures JoinedSample(group, c) == v[c]
  {
  }

  lemma PlacesArePowersOfTwo(h: Header, k: nat)
    requires LegalHeader(h) && k < GroupPixels(h)
    ensures h.depth < 8 ==> 8 - (k + 1) * h.depth >= 0
    ensures h.depth < 8 ==> Power(2, 8 - (k + 1) * h.depth) > 0
    ensures h.depth < 8 ==> Power(2, 8 - (k + 1) * h.depth) == Power(MaxVal(h.depth) + 1, GroupPixels(h) - 1 - k)
  {
    hide Power;
    if h.depth < 8 {
      PowerPositive(2, 8 - (k + 1) * h.depth);
    }
    match h.depth
    case 1 =>
    case 2 => PowerOfSquare(2, 3 - k);
    case 4 => PowerOfSquare(2, 2 * (1 - k)); PowerOfSquare(4, 1 - k);
    case _ =>
  }

  lemma {:induction false} PowerOfSquare(b: nat, n: nat)
    ensures Power(b, 2 * n) == Power(b * b, n)
  {
    if n > 0 {
      PowerOfSquare(b, n - 1);
      assert Power(b, 2 * n) == Power(b, 2 * n - 1) * b == (Power(b, 2 * n - 2) * b) * b;
      MulAssoc(Power(b, 2 * (n - 1)), b, b);
    }
  }

  lemma MulAssoc(a: nat, b: nat, c: nat)
    ensures (a * b) * c == a * (b * c)
  {
  }

  /** Digit k (counted from the left) of a packed number. */
  lemma {:induction false} DigitOfPacked(base: nat, v: seq<nat>, k: nat)
    requires base > 0 && k < |v| && forall i | 0 <= i < |v| :: v[i] < base
    ensures Power(base, |v| - 1 - k) > 0
    ensures (PackBits(base, v) / Power(base, |v| - 1 - k)) % base == v[k]
  {
    var last := |v| - 1;
    var high := PackBits(base, v[..last]);
    PowerPositive(base, last - k);
    DivOfShifted(high, base, v[last]);
    if k < last {
      DigitOfPacked(base, v[..last], k);
      var q := Power(base, last - 1 - k);
      DivTwice(PackBits(base, v), base, q, Power(base, last - k));
    }
  }

  lemma PowerPositive(base: nat, n: nat)
    requires base > 0
    ensures Power(base, n) > 0
  {
    if n > 0 {
      PowerPositive(base, n - 1);
      MulLess(0, Power(base, n - 1), base);
    }
  }

  lemma DivOfShifted(high: nat, base: nat, low: nat)
    requires low < base
    ensures (high * base + low) / base == high && (high * base + low) % base == low
  {
    var n := high * base + low;
    var q, r := n / base, n % base;
    assert n == base * q + r;
    if q < high {
      MulAtMost(q + 1, high, base);
    } else if q > high {
      MulAtMost(high + 1, q, base);
    }
  }

  lemma DivTwice(n: nat, a: nat, b: nat, d: nat)
    requires a > 0 && b > 0 && d > 0 && d == b * a
    ensures n / d == (n / a) / b
  {
    var q1, r1 := n / a, n % a;
    var q2, r2 := q1 / b, q1 % b;
    var r := r2 * a + r1;
    assert n == q2 * d + r by { Regroup(n, a, b, q1, r1, q2, r2); }
    assert r < d by { MulAtMost(r2 + 1, b, a); }
    DivOfShifted(q2, d, r);
  }

  lemma Regroup(n: nat, a: nat, b: nat, q1: nat, r1: nat, q2: nat, r2: nat)
    requires n == a * q1 + r1 && q1 == b * q2 + r2
    ensures n == q2 * (b * a) + (r2 * a + r1)
  {
    assert a * q1 == a * (b * q2) + a * r2;
    assert a * (b * q2) == q2 * (b * a);
  }

  // ----- scanline filters (RFC 2083 section 6) -----

  function Abs(n: int): nat { if n < 0 then -n else n }

  /** Of left a, above b and upper left c, the one nearest a + b - c; ties in that order. */
  function Paeth(a: nat, b: nat, c: nat): (r: nat)
    ensures r == a || r == b || r == c
    ensures Abs(a + b - c - r) <= Abs(a + b - c - a)
    ensures Abs(a + b - c - r) <= Abs(a + b - c - b)
    ensures Abs(a + b - c - r) <= Abs(a + b - c - c)
    ensures r != a ==> Abs(a + b - c - r) < Abs(a + b - c - a)
    ensures r != a && r != b ==> Abs(a + b - c - r) < Abs(a + b - c - b)
  {
    var p := a + b - c;
    var pa := Abs(p - a);
    var pb := Abs(p - b);
    var pc := Abs(p - c);
    if pa <= pb && pa <= pc then a
    else if pb <= pc then b
    else c
  }

  /** What the decoder adds back under filter f. */
  function Predict(f: nat, a: nat, b: nat, c: nat): nat {
    match f
    case 1 => a
    case 2 => b
    case 3 => (a + b) / 2
    case 4 => Paeth(a, b, c)
    case _ => 0
  }

  /** The whole number at or just below half of n. */
  function HalfBelow(n: nat): (m: nat)
    ensures 2 * m <= n <= 2 * m + 1
  {
    if n < 2 then 0 else 1 + HalfBelow(n - 2)
  }

  /** Subtracting m, on bytes. */
  function Minus(x: byte, m: nat): byte { (x - m) % 256 }

  /** Byte i of a row, zero to the left of it. */
  function At(row: seq<byte>, i: int): byte {
    if 0 <= i < |row| then row[i] else 0
  }

  type Filter = f: byte | f <= 4

  /** What the encoder writes for byte i of a row: None leaves it, Sub subtracts the byte a pixel to the left, Up
      the byte above, Average the lower half of their sum, Paeth the nearest of left, above and upper left. */
  function FilterByte(f: nat, bpp: nat, row: seq<byte>, prev: seq<byte>, i: nat): byte
    requires i < |row|
  {
    var left, above := At(row, i - bpp), At(prev, i);
    match f
    case 0 => row[i]
    case 1 => Minus(row[i], left)
    case 2 => Minus(row[i], above)
    case 3 => Minus(row[i], HalfBelow(left as nat + above as nat))
    case 4 => Minus(row[i], Paeth(left, above, At(prev, i - bpp)))
    case _ => row[i]
  }

  /** What was written and what is added back come from the same neighbours. */
  lemma FilterByteIs(f: nat, bpp: nat, row: seq<byte>, prev: seq<byte>, i: nat)
    requires i < |row|
    ensures FilterByte(f, bpp, row, prev, i)
         == Minus(row[i], Predict(f, At(row, i - bpp), At(prev, i), At(prev, i - bpp)))
  {
    hide Paeth;
  }

  function FilterRow(bpp: nat, row: seq<byte>, prev: seq<byte>, f: nat): seq<byte> {
    seq(|row|, (i: nat) requires i < |row| => FilterByte(f, bpp, row, prev, i))
  }

  /** The y coordinate of row r of a pass, clamped to the height after row 0 as the decoder keeps it. */
  function RowY(h: Header, p: Pass, r: nat): nat {
    if r == 0 then OffY(p) else Min(PixelY(p, r), h.height)
  }

  /** The x coordinate of pixel j of a row of pass p. */
  function PixelX(p: Pass, j: nat): nat {
    if j == 0 then OffX(p) else PixelX(p, j - 1) + DivX(p)
  }

  lemma {:induction false} PixelXIs(p: Pass, j: nat)
    ensures PixelX(p, j) == OffX(p) + DivX(p) * j
  {
    if j > 0 {
      PixelXIs(p, j - 1);
      assert DivX(p) * j == DivX(p) * (j - 1) + DivX(p);
    }
  }

  /** The y coordinate of row r of pass p. */
  function PixelY(p: Pass, r: nat): nat {
    if r == 0 then OffY(p) else PixelY(p, r - 1) + DivY(p)
  }

  lemma {:induction false} PixelYIs(p: Pass, r: nat)
    ensures PixelY(p, r) == OffY(p) + DivY(p) * r
  {
    if r > 0 {
      PixelYIs(p, r - 1);
      assert DivY(p) * r == DivY(p) * (r - 1) + DivY(p);
    }
  }

  /** The first pixel of group g. */
  function GroupStart(h: Header, g: nat): nat
    requires LegalHeader(h)
  {
    if g == 0 then 0 else GroupStart(h, g - 1) + GroupPixels(h)
  }

  lemma {:induction false} GroupStartIs(h: Header, g: nat)
    requires LegalHeader(h)
    ensures GroupStart(h, g) == g * GroupPixels(h)
  {
    if g > 0 {
      GroupStartIs(h, g - 1);
      assert g * GroupPixels(h) == (g - 1) * GroupPixels(h) + GroupPixels(h);
    }
  }

  function JoinedByte(groups: nat -> seq<byte>, d: nat, i: nat): byte
    requires d > 0
  {
    At(groups(i / d), i % d)
  }

  /** Rows made of groups of d bytes. */
  function Joined(groups: nat -> seq<byte>, d: nat, n: nat): seq<byte>
    requires d > 0
  {
    seq(n, (i: nat) => JoinedByte(groups, d, i))
  }

  /** Group g of row r of pass p. */
  ghost function GroupOf(h: Header, img: Image, p: Pass, r: nat, g: nat): (group: seq<byte>)
    requires LegalHeader(h) && ImageFor(h, img)
    ensures |group| == Bpp(h)
  {
    PackGroupBytes(h, img, PixelX(p, GroupStart(h, g)), DivX(p), PixelY(p, r));
    PackGroup(h, img, PixelX(p, GroupStart(h, g)), DivX(p), PixelY(p, r))
  }

  ghost function GroupsOf(h: Header, img: Image, p: Pass, r: nat): nat -> seq<byte>
    requires LegalHeader(h) && ImageFor(h, img)
  {
    (g: nat) => GroupOf(h, img, p, r, g)
  }

  /** The unfiltered bytes of row r of pass p. */
  ghost function RawRow(h: Header, img: Image, p: Pass, r: nat): seq<byte>
    requires LegalHeader(h) && ImageFor(h, img)
  {
    SizesOf(h);
    Joined(GroupsOf(h, img, p, r), Bpp(h), Stride(h, p))
  }

  // ----- the serialised image -----

  /** The unfiltered rows of every pass, and the filter chosen for each. */
  type Rows = (Pass, nat) -> seq<byte>
  type Filters = (Pass, nat) -> Filter

  /** The row above row r, zeros for the first of a pass. */
  function PrevRow(h: Header, rows: Rows, p: Pass, r: nat): seq<byte> {
    if r == 0 then seq(Stride(h, p), _ => 0) else rows(p, r - 1)
  }

  /** One filter byte, then the filtered row. */
  function RowStream(h: Header, rows: Rows, filters: Filters, p: Pass, r: nat): seq<byte> {
    [filters(p, r)] + FilterRow(Bpp(h), rows(p, r), PrevRow(h, rows, p, r), filters(p, r))
  }

  /** Rows r and later of pass p. */
  function RowsStream(h: Header, rows: Rows, filters: Filters, p: Pass, r: nat): seq<byte>
    decreases PassH(h, p) - r
  {
    if r >= PassH(h, p) then [] else RowStream(h, rows, filters, p, r) + RowsStream(h, rows, filters, p, r + 1)
  }

  /** A pass without columns writes nothing, not even filter bytes. */
  function PassStream(h: Header, rows: Rows, filters: Filters, p: Pass): seq<byte> {
    if PassW(h, p) == 0 then [] else RowsStream(h, rows, filters, p, 0)
  }

  /** Pass p and, when interlaced, the passes after it. */
  function Stream(h: Header, rows: Rows, filters: Filters, p: Pass): seq<byte>
    decreases 7 - p
  {
    if p == 0 || p == 7 then PassStream(h, rows, filters, p)
    else PassStream(h, rows, filters, p) + Stream(h, rows, filters, p + 1)
  }

  ghost function RowsOf(h: Header, img: Image): Rows
    requires LegalHeader(h) && ImageFor(h, img)
  {
    (p: Pass, r: nat) => RawRow(h, img, p, r)
  }

  /** RFC 2083 section 2: the bytes a compressor is given for an image. */
  ghost function Serialise(h: Header, img: Image, filters: Filters): seq<byte>
    requires LegalHeader(h) && ImageFor(h, img)
  {
    Stream(h, RowsOf(h, img), filters, FirstPass(h))
  }

  // ----- the pixels, in stream order -----

  /** The colour of pixel j of row r of a pass. */
  type Pixels = (Pass, nat) -> (nat -> seq<byte>)

  function DrawAt(h: Header, p: Pass, x: nat, y: nat, rgba: seq<byte>): Draw {
    Draw(x, y, Min(DivX(p) - OffX(p), if x < h.width then h.width - x else 0),
      Min(DivY(p) - OffY(p), if y < h.height then h.height - y else 0), rgba)
  }

  /** The block drawn for a pixel is never empty, starts at the pixel and stays inside the image. */
  lemma BlockInside(h: Header, p: Pass, x: nat, y: nat, rgba: seq<byte>)
    requires x < h.width && y < h.height
    ensures var d := DrawAt(h, p, x, y, rgba);
            && d.x == x && d.y == y && 1 <= d.w <= h.width - x && 1 <= d.h <= h.height - y
            && (p == 0 ==> d.w == d.h == 1) && d.rgba == rgba
  {
    assert DivX(p) > OffX(p) && DivY(p) > OffY(p);
  }

  /** The first n pixels of a row, pix giving the colour of each. */
  function PixelDraws(h: Header, p: Pass, y: nat, pix: nat -> seq<byte>, n: nat): seq<Draw> {
    seq(n, (j: nat) => DrawAt(h, p, PixelX(p, j), y, pix(j)))
  }

  function RowDraws(h: Header, pixels: Pixels, p: Pass, r: nat): seq<Draw> {
    PixelDraws(h, p, PixelY(p, r), pixels(p, r), PassW(h, p))
  }

  function RowsDraws(h: Header, pixels: Pixels, p: Pass, r: nat): seq<Draw>
    decreases PassH(h, p) - r
  {
    if r >= PassH(h, p) then [] else RowDraws(h, pixels, p, r) + RowsDraws(h, pixels, p, r + 1)
  }

  function PassDraws(h: Header, pixels: Pixels, p: Pass): seq<Draw> {
    if PassW(h, p) == 0 then [] else RowsDraws(h, pixels, p, 0)
  }

  function Draws(h: Header, pixels: Pixels, p: Pass): seq<Draw>
    decreases 7 - p
  {
    if p == 0 || p == 7 then PassDraws(h, pixels, p) else PassDraws(h, pixels, p) + Draws(h, pixels, p + 1)
  }
}
