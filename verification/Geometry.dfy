/**
 Normalized, pixel and logical-screen coordinates. Every f64 operation is a real operation followed
 by `rnd`, an arbitrary rounding with what round-to-nearest binary64 guarantees (sections 4.3.1 and
 5.4.1 of IEEE 754-2019) for the magnitudes in use. NaN and infinities are outside type `real`.
 */
module Geometry {
  import opened Common

  const EPS: real := 1.0 / 9007199254740992.0
  const SMALL: real := 1.0 / 1099511627776.0

  datatype Point = Point(x: nat, y: nat)
  datatype PixelSize = PixelSize(width: nat, height: nat)
  datatype NormalizedPoint = NormalizedPoint(x: real, y: real)
  datatype ScreenPoint = ScreenPoint(x: real, y: real)
  datatype ScreenRect = ScreenRect(x: real, y: real, width: real, height: real)

  function Half(n: int): real {
    n as real / 2.0
  }

  function Abs(x: real): real {
    if x < 0.0 then -x else x
  }

  ghost predicate Monotone(rnd: real -> real) {
    forall x, y :: x <= y ==> rnd(x) <= rnd(y)
  }

  /** Integers up to 2^52 and the half-integers between them are representable. */
  ghost predicate ExactOnHalves(rnd: real -> real) {
    forall n: int :: -0x20_0000_0000_0000 <= n <= 0x20_0000_0000_0000 ==> rnd(Half(n)) == Half(n)
  }

  /** At least 2^-40, the relative error is at most 2^-53. */
  ghost predicate RelativelyClose(rnd: real -> real) {
    forall x :: SMALL <= x ==> Abs(rnd(x) - x) <= x * EPS
  }

  function Scaled(n: nat, x: real): real {
    n as real * x
  }

  /** Whole multiples of a representable number are as close, however small it is. */
  ghost predicate CloseOnMultiples(rnd: real -> real) {
    forall x: real, n: nat :: 0.0 < x && rnd(x) == x && 1 <= n <= U32_MAX ==>
      Abs(rnd(Scaled(n, x)) - Scaled(n, x)) <= Scaled(n, x) * EPS
  }

  ghost predicate Rounding(rnd: real -> real) {
    Monotone(rnd) && ExactOnHalves(rnd) && RelativelyClose(rnd) && CloseOnMultiples(rnd)
  }

  predicate IsU32(n: int) {
    0 <= n <= U32_MAX
  }

  predicate Sized(size: PixelSize) {
    IsU32(size.width) && IsU32(size.height)
  }

  predicate Contains(size: PixelSize, p: Point) {
    p.x < size.width && p.y < size.height
  }

  /** `f64::round` on a nonnegative value followed by the saturating cast to u32. */
  function RoundToU32(x: real): nat {
    var n := (x + 0.5).Floor;
    if n < 0 then 0 else if n > U32_MAX then U32_MAX else n
  }

  function PixelOf(rnd: real -> real, scaled: real): nat {
    RoundToU32(rnd(rnd(scaled) / 1000.0))
  }

  function ToPixelAxis(rnd: real -> real, value: real, length: nat): nat
    requires length > 0
  {
    PixelOf(rnd, value * (length - 1) as real)
  }

  function ToPixel(rnd: real -> real, p: NormalizedPoint, size: PixelSize): Option<Point> {
    if !(0.0 <= p.x <= 1000.0) || !(0.0 <= p.y <= 1000.0) || size.width == 0 || size.height == 0 then None
    else Some(Point(ToPixelAxis(rnd, p.x, size.width), ToPixelAxis(rnd, p.y, size.height)))
  }

  function FromPixelAxis(rnd: real -> real, value: nat, length: nat): real {
    rnd(rnd(value as real * 1000.0) / (if length <= 2 then 1 else length - 1) as real)
  }

  function FromPixel(rnd: real -> real, p: Point, size: PixelSize): Option<NormalizedPoint> {
    if !Contains(size, p) then None
    else Some(NormalizedPoint(FromPixelAxis(rnd, p.x, size.width), FromPixelAxis(rnd, p.y, size.height)))
  }

  /** The integer path for whole coordinates 0..1000. */
  function NormalizedAxis(value: nat, length: nat): nat {
    (value * (if length == 0 then 0 else length - 1) + 500) / 1000
  }

  lemma ExactInteger(rnd: real -> real, n: int)
    requires ExactOnHalves(rnd) && -0x10_0000_0000_0000 <= n <= 0x10_0000_0000_0000
    ensures rnd(n as real) == n as real
  {
    assert Half(2 * n) == n as real;
  }

  lemma RoundUpTo(rnd: real -> real, x: real, n: nat)
    requires Rounding(rnd) && 0.0 <= x <= n as real && n <= 0x10_0000_0000_0000
    ensures 0.0 <= rnd(x) <= n as real
  {
    ExactInteger(rnd, 0);
    ExactInteger(rnd, n);
  }

  lemma PixelOfInRange(rnd: real -> real, scaled: real, m: nat)
    requires Rounding(rnd) && 0.0 <= scaled <= (1000 * m) as real && m < U32_MAX
    ensures PixelOf(rnd, scaled) <= m
    ensures PixelOf(rnd, scaled) == (rnd(rnd(scaled) / 1000.0) + 0.5).Floor
  {
    RoundUpTo(rnd, scaled, 1000 * m);
    RoundUpTo(rnd, rnd(scaled) / 1000.0, m);
  }

  lemma ProductBound(v: real, w: real, m: nat)
    requires 0.0 <= v <= w <= 1000.0
    ensures 0.0 <= v * m as real <= w * m as real <= (1000 * m) as real
  {
  }

  /** The image of [0, 1000] is [0, length - 1], so the cast never saturates. */
  lemma ToPixelAxisInRange(rnd: real -> real, value: real, length: nat)
    requires Rounding(rnd) && 0.0 <= value <= 1000.0 && 0 < length <= U32_MAX
    ensures ToPixelAxis(rnd, value, length) <= length - 1
  {
    hide Rounding, PixelOf;
    ProductBound(value, value, length - 1);
    PixelOfInRange(rnd, value * (length - 1) as real, length - 1);
  }

  lemma PixelOfMonotone(rnd: real -> real, x: real, y: real)
    requires Monotone(rnd) && x <= y
    ensures PixelOf(rnd, x) <= PixelOf(rnd, y)
  {
    assert rnd(x) / 1000.0 <= rnd(y) / 1000.0;
  }

  /** A coordinate further along the axis never maps to an earlier pixel. */
  lemma ToPixelAxisMonotone(rnd: real -> real, v: real, w: real, length: nat)
    requires Rounding(rnd) && 0.0 <= v <= w <= 1000.0 && 0 < length
    ensures ToPixelAxis(rnd, v, length) <= ToPixelAxis(rnd, w, length)
  {
    hide Monotone, PixelOf;
    ProductBound(v, w, length - 1);
    PixelOfMonotone(rnd, v * (length - 1) as real, w * (length - 1) as real);
  }

  /** One rounding of a value near `t` adds at most one relative error. */
  lemma RoundNear(rnd: real -> real, x: real, t: real, err: real)
    requires RelativelyClose(rnd) && Abs(x - t) <= err && SMALL <= x && err <= t
    ensures Abs(rnd(x) - t) <= err + 2.0 * t * EPS
  {
    assert x <= 2.0 * t;
    assert Abs(rnd(x) - x) <= x * EPS;
    assert x * EPS <= 2.0 * t * EPS;
  }

  lemma FromPixelAxisNear(rnd: real -> real, p: nat, m: nat)
    requires Rounding(rnd) && 1 <= p <= m <= U32_MAX
    ensures var n := rnd((1000 * p) as real / m as real);
      0.0 <= n <= 1000.0 && Abs(n * m as real - (1000 * p) as real) <= (1000 * p) as real * EPS
  {
    var a := (1000 * p) as real / m as real;
    assert a * m as real == (1000 * p) as real;
    QuotientBounds(p, m);
    ExactInteger(rnd, 0);
    ExactInteger(rnd, 1000);
    var n := rnd(a);
    assert Abs(n - a) <= a * EPS;
    ScaleError(n, a, m as real);
  }

  lemma QuotientBounds(p: nat, m: nat)
    requires 1 <= p <= m <= U32_MAX
    ensures var a := (1000 * p) as real / m as real; SMALL <= a <= 1000.0
  {
    var a := (1000 * p) as real / m as real;
    assert (1000 * p) as real <= 1000.0 * m as real;
    assert SMALL * m as real <= (1000 * p) as real;
  }

  lemma ScaleError(n: real, a: real, d: real)
    requires d > 0.0 && Abs(n - a) <= a * EPS
    ensures Abs(n * d - a * d) <= a * d * EPS
  {
    assert (n - a) * d == n * d - a * d;
    assert (a * EPS) * d == a * d * EPS;
    if n >= a { assert (n - a) * d <= (a * EPS) * d; } else { assert (a - n) * d <= (a * EPS) * d; }
  }

  /** Projecting a pixel into normalized space and back lands on exactly that pixel. */
  lemma AxisRoundTrip(rnd: real -> real, p: nat, length: nat)
    requires Rounding(rnd) && p < length <= U32_MAX
    ensures 0.0 <= FromPixelAxis(rnd, p, length) <= 1000.0
    ensures ToPixelAxis(rnd, FromPixelAxis(rnd, p, length), length) == p
  {
    hide Rounding, PixelOf, FromPixelAxis;
    FromPixelAxisIs(rnd, p, length);
    var n := FromPixelAxis(rnd, p, length);
    var scaled := n * (length - 1) as real;
    ToPixelAxisIs(rnd, n, length, scaled);
    if p == 0 {
      PixelOfZero(rnd);
    } else {
      FromPixelAxisNear(rnd, p, length - 1);
      BackToPixel(rnd, scaled, p);
    }
  }

  lemma ToPixelAxisIs(rnd: real -> real, value: real, length: nat, scaled: real)
    requires length > 0 && scaled == value * (length - 1) as real
    ensures ToPixelAxis(rnd, value, length) == PixelOf(rnd, scaled)
  {
  }

  lemma FromPixelAxisIs(rnd: real -> real, p: nat, length: nat)
    requires Rounding(rnd) && p < length <= U32_MAX
    ensures p == 0 ==> FromPixelAxis(rnd, p, length) == 0.0
    ensures p > 0 ==> FromPixelAxis(rnd, p, length) == rnd((1000 * p) as real / (length - 1) as real)
  {
    ExactInteger(rnd, 1000 * p);
    ExactInteger(rnd, 0);
    assert (1000 * p) as real == p as real * 1000.0;
  }

  lemma PixelOfZero(rnd: real -> real)
    requires Rounding(rnd)
    ensures PixelOf(rnd, 0.0) == 0
  {
    ExactInteger(rnd, 0);
  }

  lemma BackToPixel(rnd: real -> real, b: real, p: nat)
    requires Rounding(rnd) && 1 <= p <= U32_MAX && Abs(b - (1000 * p) as real) <= (1000 * p) as real * EPS
    ensures PixelOf(rnd, b) == p
  {
    var t := p as real;
    assert t * EPS <= 0.000001;
    RoundNear(rnd, b, 1000.0 * t, 1000.0 * t * EPS);
    var d := rnd(b) / 1000.0;
    assert Abs(d - t) <= 3.0 * t * EPS;
    RoundNear(rnd, d, t, 3.0 * t * EPS);
    assert Abs(rnd(d) - t) < 0.5;
  }

  lemma PixelOfWhole(rnd: real -> real, product: nat, m: nat)
    requires Rounding(rnd) && product <= 1000 * m && m < U32_MAX
    ensures PixelOf(rnd, product as real) == (product + 500) / 1000
  {
    ExactInteger(rnd, product);
    var k := (product + 500) / 1000;
    var q := product as real / 1000.0;
    assert Half(2 * k - 1) <= q <= k as real + 0.499;
    assert rnd(Half(2 * k - 1)) == Half(2 * k - 1);
    if product == 0 {
      ExactInteger(rnd, 0);
    } else {
      assert SMALL <= q && q * EPS <= 0.000001;
    }
  }

  lemma {:induction false} RealProduct(a: nat, b: nat)
    ensures (a * b) as real == a as real * b as real
  {
    if a > 0 { RealProduct(a - 1, b); }
  }

  /** For whole coordinates the rounded path and the integer path choose the same pixel. */
  lemma ToPixelAgreesWithIntegerPath(rnd: real -> real, value: nat, length: nat)
    requires Rounding(rnd) && value <= 1000 && 0 < length <= U32_MAX
    ensures ToPixelAxis(rnd, value as real, length) == NormalizedAxis(value, length)
  {
    hide Rounding, PixelOf;
    RealProduct(value, length - 1);
    PixelOfWhole(rnd, value * (length - 1), length - 1);
  }

  /** The same three facts for points of an image. */
  lemma PointRoundTrip(rnd: real -> real, p: Point, size: PixelSize)
    requires Rounding(rnd) && Sized(size)
    ensures Contains(size, p) <==> FromPixel(rnd, p, size).Some?
    ensures Contains(size, p) ==> ToPixel(rnd, FromPixel(rnd, p, size).value, size) == Some(p)
  {
    if Contains(size, p) {
      AxisRoundTrip(rnd, p.x, size.width);
      AxisRoundTrip(rnd, p.y, size.height);
    }
  }

  /** Any coordinate that may arrive. */
  datatype Float = Finite(value: real) | Infinite(negative: bool) | NotANumber

  function ToPixelOf(rnd: real -> real, x: Float, y: Float, size: PixelSize): Option<Point> {
    if x.Finite? && y.Finite? then ToPixel(rnd, NormalizedPoint(x.value, y.value), size) else None
  }

  predicate InScale(x: Float) {
    x.Finite? && 0.0 <= x.value <= 1000.0
  }

  lemma ToPixelHitsImage(rnd: real -> real, x: Float, y: Float, size: PixelSize)
    requires Rounding(rnd) && Sized(size)
    ensures ToPixelOf(rnd, x, y, size).Some? <==> InScale(x) && InScale(y) && size.width > 0 && size.height > 0
    ensures ToPixelOf(rnd, x, y, size).Some? ==> Contains(size, ToPixelOf(rnd, x, y, size).value)
  {
    if ToPixelOf(rnd, x, y, size).Some? {
      ToPixelAxisInRange(rnd, x.value, size.width);
      ToPixelAxisInRange(rnd, y.value, size.height);
    }
  }

  function ToScreenAxis(rnd: real -> real, origin: real, extent: real, pixel: nat, length: nat): real
    requires length > 0
  {
    rnd(origin + rnd(rnd(pixel as real * extent) / length as real))
  }

  /** `ScreenRect::contains` on one axis, with its own rounded sum. */
  predicate AxisContains(rnd: real -> real, origin: real, extent: real, at: real) {
    origin <= at <= rnd(origin + extent)
  }

  lemma ScaledExtent(p: real, n: real, extent: real, a: real)
    requires 0.0 == p || 1.0 <= p
    requires p <= n - 1.0 && 1.0 <= n <= U32_MAX as real && 0.0 < extent && a == p * extent
    ensures (p == 0.0 ==> a == 0.0) && (p > 0.0 ==> extent <= a) && a + a * EPS <= n * extent
  {
    var q := p + p * EPS;
    assert q <= n;
    assert q * extent <= n * extent;
    assert q * extent == p * extent + (p * extent) * EPS;
  }

  lemma OffsetWithin(rnd: real -> real, pixel: nat, n: real, extent: real, a: real)
    requires Rounding(rnd) && rnd(extent) == extent && 0.0 < extent && a == Scaled(pixel, extent)
    requires pixel as real <= n - 1.0 && 1.0 <= n <= U32_MAX as real
    ensures 0.0 <= rnd(rnd(a) / n) <= extent
  {
    ExactInteger(rnd, 0);
    ScaledExtent(pixel as real, n, extent, a);
    hide Scaled;
    if pixel > 0 { assert Abs(rnd(a) - a) <= a * EPS; }
    assert 0.0 <= rnd(a) <= n * extent;
    Divide(rnd(a), n, extent);
  }

  lemma Divide(a: real, n: real, extent: real)
    requires n > 0.0 && 0.0 <= a <= n * extent
    ensures 0.0 <= a / n <= extent
  {
  }

  lemma SumWithin(rnd: real -> real, origin: real, offset: real, extent: real)
    requires Rounding(rnd) && rnd(origin) == origin && 0.0 <= offset <= extent
    ensures AxisContains(rnd, origin, extent, rnd(origin + offset))
  {
  }

  /** Every pixel of the image maps to a logical point that the captured rectangle contains. */
  lemma ToScreenContained(rnd: real -> real, origin: real, extent: real, pixel: nat, length: nat)
    requires Rounding(rnd) && 0.0 < extent && rnd(extent) == extent && rnd(origin) == origin
    requires pixel < length <= U32_MAX
    ensures AxisContains(rnd, origin, extent, ToScreenAxis(rnd, origin, extent, pixel, length))
  {
    hide Rounding, AxisContains;
    var a := pixel as real * extent;
    OffsetWithin(rnd, pixel, length as real, extent, a);
    SumWithin(rnd, origin, rnd(rnd(a) / length as real), extent);
    ToScreenAxisIs(rnd, origin, extent, pixel, length, a);
  }

  lemma ToScreenAxisIs(rnd: real -> real, origin: real, extent: real, pixel: nat, length: nat, a: real)
    requires length > 0 && a == pixel as real * extent
    ensures ToScreenAxis(rnd, origin, extent, pixel, length) == rnd(origin + rnd(rnd(a) / length as real))
  {
  }
}
