/** The display's line drawing, in all octants, on 16-bit coordinates. */
module Line {
  import opened Basics

  type coord = u16

  datatype Point = Point(x: nat, y: nat)

  function Wrap(v: int): coord { v % U16 }

  function Distance(a: nat, b: nat): nat { if b > a then b - a else a - b }

  /** k steps from a towards b; no steps at all count down, as the code does. */
  function Towards(a: nat, b: nat, k: int): int { if b > a then a + k else a - k }

  /** How far the minor coordinate has moved after i major steps. */
  function Offset(i: nat, minor: nat, major: nat): nat
    requires major > 0 || i == 0
  {
    if major == 0 then 0 else (2 * (i * minor) + major) / (2 * major)
  }

  /** Point i of the line: the major coordinate moves by one a time. */
  function LinePoint(x1: nat, y1: nat, x2: nat, y2: nat, i: nat): Point
    requires i <= Max(Distance(x1, x2), Distance(y1, y2))
  {
    var dx, dy := Distance(x1, x2), Distance(y1, y2);
    if dx > dy then Point(Wrap(Towards(x1, x2, i)), Wrap(Towards(y1, y2, Offset(i, dy, dx))))
    else Point(Wrap(Towards(x1, x2, Offset(i, dx, dy))), Wrap(Towards(y1, y2, i)))
  }

  // ----- the error term -----

  lemma QuotientIs(n: nat, d: nat, q: nat)
    requires d > 0 && q * d <= n < (q + 1) * d
    ensures n / d == q
  {
    var r := n / d;
    assert n == r * d + n % d;
    MulAtMost(r + 1, q, d);
    MulAtMost(q + 1, r, d);
  }

  /** The offset m is the one whose error term lies between -2 * major and 0. */
  lemma OffsetIs(i: nat, minor: nat, major: nat, m: nat)
    requires major > 0 && -2 * major <= 2 * (i * minor) - major - 2 * (major * m) < 0
    ensures Offset(i, minor, major) == m
  {
    assert m * (2 * major) == 2 * (major * m) && (m + 1) * (2 * major) == 2 * (major * m) + 2 * major;
    QuotientIs(2 * (i * minor) + major, 2 * major, m);
  }

  /** An offset m at most half a pixel from i * minor / major, on either side. */
  predicate Near(i: nat, minor: nat, major: nat, m: nat) {
    2 * (major * m) - 2 * (i * minor) <= major && 2 * (i * minor) - 2 * (major * m) <= major
  }

  /** The nearest pixel: twice the error is at most one pixel. */
  lemma WithinHalfAPixel(i: nat, minor: nat, major: nat)
    requires major > 0
    ensures Near(i, minor, major, Offset(i, minor, major))
  {
    var n, d := 2 * (i * minor) + major, 2 * major;
    var q := n / d;
    assert n == q * d + n % d;
    assert q * d == 2 * (major * q);
  }

  lemma OffsetEnds(minor: nat, major: nat)
    requires major > 0 && minor <= major
    ensures Offset(0, minor, major) == 0 && Offset(major, minor, major) == minor
  {
    OffsetIs(0, minor, major, 0);
    OffsetIs(major, minor, major, minor);
  }

  /** The offset never moves by more than one, never back, and never past the end. */
  lemma OffsetSteps(i: nat, minor: nat, major: nat)
    requires major > 0 && minor <= major
    ensures Offset(i, minor, major) <= Offset(i + 1, minor, major) <= Offset(i, minor, major) + 1
  {
    WithinHalfAPixel(i, minor, major);
    var m := Offset(i, minor, major);
    var e := 2 * (i * minor) - major - 2 * (major * m);
    assert (i + 1) * minor == i * minor + minor;
    assert -2 * major <= e < 0 by { ErrorRange(i, minor, major); }
    if e + 2 * minor < 0 {
      OffsetIs(i + 1, minor, major, m);
    } else {
      assert major * (m + 1) == major * m + major;
      OffsetIs(i + 1, minor, major, m + 1);
    }
  }

  lemma ErrorRange(i: nat, minor: nat, major: nat)
    requires major > 0
    ensures -2 * major <= 2 * (i * minor) - major - 2 * (major * Offset(i, minor, major)) < 0
  {
    var n, d := 2 * (i * minor) + major, 2 * major;
    var q := n / d;
    assert n == q * d + n % d && 0 <= n % d < d;
    assert q * d == 2 * (major * q);
  }

  lemma {:induction false} OffsetWithin(i: nat, minor: nat, major: nat)
    requires major > 0 && minor <= major && i <= major
    ensures Offset(i, minor, major) <= minor
    decreases major - i
  {
    if i == major {
      OffsetEnds(minor, major);
    } else {
      OffsetSteps(i, minor, major);
      OffsetWithin(i + 1, minor, major);
    }
  }

  // ----- the line -----

  /** p lies between the ends (so nothing wrapped), i major steps from the first, on the pixel nearest to the
      ideal line. */
  predicate OnLine(x1: nat, y1: nat, x2: nat, y2: nat, i: nat, p: Point) {
    var dx, dy := Distance(x1, x2), Distance(y1, y2);
    && Distance(x1, p.x) + Distance(p.x, x2) == dx && Distance(y1, p.y) + Distance(p.y, y2) == dy
    && if dx > dy then Distance(x1, p.x) == i && Near(i, dy, dx, Distance(y1, p.y))
       else Distance(y1, p.y) == i && Near(i, dx, dy, Distance(x1, p.x))
  }

  /** The line starts and ends where asked, and every pixel is the nearest to the ideal line. */
  lemma LineIsTrue(x1: coord, y1: coord, x2: coord, y2: coord, i: nat)
    requires i <= Max(Distance(x1, x2), Distance(y1, y2))
    ensures OnLine(x1, y1, x2, y2, i, LinePoint(x1, y1, x2, y2, i))
    ensures i == 0 ==> LinePoint(x1, y1, x2, y2, i) == Point(x1, y1)
    ensures i == Max(Distance(x1, x2), Distance(y1, y2)) ==> LinePoint(x1, y1, x2, y2, i) == Point(x2, y2)
  {
    var dx, dy := Distance(x1, x2), Distance(y1, y2);
    var major, minor := Max(dx, dy), if dx > dy then dy else dx;
    if major > 0 {
      OffsetWithin(i, minor, major);
      OffsetEnds(minor, major);
      WithinHalfAPixel(i, minor, major);
    }
    hide Offset;
    if dx > dy {
      TowardsStays(x1, x2, i);
      TowardsStays(y1, y2, Offset(i, dy, dx));
    } else {
      TowardsStays(y1, y2, i);
      TowardsStays(x1, x2, Offset(i, dx, dy));
    }
  }

  lemma TowardsStays(a: coord, b: coord, k: nat)
    requires k <= Distance(a, b)
    ensures var p := Wrap(Towards(a, b, k));
            p == Towards(a, b, k) && Distance(a, p) == k && Distance(a, p) + Distance(p, b) == Distance(a, b)
            && (k == 0 ==> p == a) && (k == Distance(a, b) ==> p == b)
  {
  }

  /** Neighbouring points touch, sideways or diagonally: the line has no gaps. */
  lemma LineIsConnected(x1: coord, y1: coord, x2: coord, y2: coord, i: nat)
    requires i < Max(Distance(x1, x2), Distance(y1, y2))
    ensures var p, q := LinePoint(x1, y1, x2, y2, i), LinePoint(x1, y1, x2, y2, i + 1);
            Distance(p.x, q.x) <= 1 && Distance(p.y, q.y) <= 1 && p != q
  {
    var dx, dy := Distance(x1, x2), Distance(y1, y2);
    var major, minor := Max(dx, dy), if dx > dy then dy else dx;
    OffsetWithin(i, minor, major);
    OffsetWithin(i + 1, minor, major);
    OffsetSteps(i, minor, major);
    hide Offset;
    if dx > dy {
      TowardsStays(x1, x2, i);
      TowardsStays(x1, x2, i + 1);
      TowardsStays(y1, y2, Offset(i, dy, dx));
      TowardsStays(y1, y2, Offset(i + 1, dy, dx));
    } else {
      TowardsStays(y1, y2, i);
      TowardsStays(y1, y2, i + 1);
      TowardsStays(x1, x2, Offset(i, dx, dy));
      TowardsStays(x1, x2, Offset(i + 1, dx, dy));
    }
  }

  /** One turn of the error term. */
  lemma ErrorStep(i: nat, minor: nat, major: nat, e: int)
    requires major > 0 && minor <= major && e == 2 * (i * minor) - major - 2 * (major * Offset(i, minor, major))
    ensures var m := Offset(i, minor, major);
            var f := e + 2 * minor;
            if f >= 0 then
              Offset(i + 1, minor, major) == m + 1
              && f - 2 * major == 2 * ((i + 1) * minor) - major - 2 * (major * (m + 1))
            else
              Offset(i + 1, minor, major) == m && f == 2 * ((i + 1) * minor) - major - 2 * (major * m)
  {
    var m := Offset(i, minor, major);
    ErrorRange(i, minor, major);
    assert (i + 1) * minor == i * minor + minor && major * (m + 1) == major * m + major;
    if e + 2 * minor >= 0 {
      OffsetIs(i + 1, minor, major, m + 1);
    } else {
      OffsetIs(i + 1, minor, major, m);
    }
  }

  lemma WrapStep(v: int, k: int)
    requires k == 1 || k == -1
    ensures Wrap(Wrap(v) + k) == Wrap(v + k)
  {
  }

  /** lcdDrawLine: the pixels drawn, in order. */
  method DrawLine(x1: coord, y1: coord, x2: coord, y2: coord) returns (drawn: seq<Point>)
    ensures |drawn| == Max(Distance(x1, x2), Distance(y1, y2)) + 1
    ensures forall i | 0 <= i < |drawn| :: drawn[i] == LinePoint(x1, y1, x2, y2, i)
  {
    hide LinePoint;
    var dx := if x2 > x1 then x2 - x1 else x1 - x2;
    var dy := if y2 > y1 then y2 - y1 else y1 - y2;
    var sx := if x2 > x1 then 1 else -1;
    var sy := if y2 > y1 then 1 else -1;
    if dx > dy {
      drawn := DrawFlat(x1, y1, x2, y2, dx, dy, sx, sy);
    } else {
      drawn := DrawSteep(x1, y1, x2, y2, dx, dy, sx, sy);
    }
  }

  /** Inclination below 1. */
  method DrawFlat(fromX: coord, fromY: coord, ghost x2: coord, ghost y2: coord, dx: nat, dy: nat, sx: int, sy: int)
    returns (drawn: seq<Point>)
    requires dx == Distance(fromX, x2) && dy == Distance(fromY, y2) && dx > dy
    requires sx == (if x2 > fromX then 1 else -1) && sy == if y2 > fromY then 1 else -1
    ensures |drawn| == dx + 1 && forall i | 0 <= i < |drawn| :: drawn[i] == LinePoint(fromX, fromY, x2, y2, i)
  {
    hide Offset, Wrap, LinePoint;
    var x1: coord, y1: coord := fromX, fromY;
    drawn := [];
    AtStart(fromX, x2);
    AtStart(fromY, y2);
    OffsetEnds(dy, dx);
    var e := 0 - dx;
    for i := 0 to dx + 1
      invariant x1 == Wrap(Towards(fromX, x2, i)) && y1 == Wrap(Towards(fromY, y2, Offset(i, dy, dx)))
      invariant e == 2 * (i * dy) - dx - 2 * (dx * Offset(i, dy, dx))
      invariant |drawn| == i && forall k | 0 <= k < i :: drawn[k] == LinePoint(fromX, fromY, x2, y2, k)
    {
      PointIs(fromX, fromY, x2, y2, i);
      ErrorStep(i, dy, dx, e);
      WrapStep(Towards(fromX, x2, i), sx);
      WrapStep(Towards(fromY, y2, Offset(i, dy, dx)), sy);
      drawn := drawn + [Point(x1, y1)];
      x1 := Wrap(x1 + sx);
      e := e + 2 * dy;
      if e >= 0 {
        y1 := Wrap(y1 + sy);
        e := e - 2 * dx;
      }
    }
  }

  /** Inclination 1 and above; a single point is drawn here too, with no error term to speak of. */
  method DrawSteep(fromX: coord, fromY: coord, ghost x2: coord, ghost y2: coord, dx: nat, dy: nat, sx: int, sy: int)
    returns (drawn: seq<Point>)
    requires dx == Distance(fromX, x2) && dy == Distance(fromY, y2) && dx <= dy
    requires sx == (if x2 > fromX then 1 else -1) && sy == if y2 > fromY then 1 else -1
    ensures |drawn| == dy + 1 && forall i | 0 <= i < |drawn| :: drawn[i] == LinePoint(fromX, fromY, x2, y2, i)
  {
    hide Offset, Wrap, LinePoint;
    var x1: coord, y1: coord := fromX, fromY;
    drawn := [];
    AtStart(fromX, x2);
    AtStart(fromY, y2);
    NoOffset(dx, dy);
    var e := 0 - dy;
    for i := 0 to dy + 1
      invariant i <= dy ==> y1 == Wrap(Towards(fromY, y2, i)) && x1 == Wrap(Towards(fromX, x2, Offset(i, dx, dy)))
      invariant i <= dy ==> e == 2 * (i * dx) - dy - 2 * (dy * Offset(i, dx, dy))
      invariant |drawn| == i && forall k | 0 <= k < i :: drawn[k] == LinePoint(fromX, fromY, x2, y2, k)
    {
      PointIs(fromX, fromY, x2, y2, i);
      if i < dy {
        ErrorStep(i, dx, dy, e);
        WrapStep(Towards(fromY, y2, i), sy);
        WrapStep(Towards(fromX, x2, Offset(i, dx, dy)), sx);
      }
      drawn := drawn + [Point(x1, y1)];
      y1 := Wrap(y1 + sy);
      e := e + 2 * dx;
      if e >= 0 {
        x1 := Wrap(x1 + sx);
        e := e - 2 * dy;
      }
    }
  }

  lemma PointIs(x1: coord, y1: coord, x2: coord, y2: coord, i: nat)
    requires i <= Max(Distance(x1, x2), Distance(y1, y2))
    ensures var dx, dy := Distance(x1, x2), Distance(y1, y2);
            LinePoint(x1, y1, x2, y2, i)
              == if dx > dy then Point(Wrap(Towards(x1, x2, i)), Wrap(Towards(y1, y2, Offset(i, dy, dx))))
                 else Point(Wrap(Towards(x1, x2, Offset(i, dx, dy))), Wrap(Towards(y1, y2, i)))
  {
    hide Offset, Wrap;
  }

  lemma AtStart(a: coord, b: coord)
    ensures Wrap(Towards(a, b, 0)) == a
  {
  }

  lemma NoOffset(minor: nat, major: nat)
    requires minor <= major
    ensures Offset(0, minor, major) == 0
  {
  }
}
