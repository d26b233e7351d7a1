/**
 Round-to-nearest, ties-to-even, with 53 significant bits and a least unit of 2^-1074, as in sections
 3.3 and 4.3.1 of IEEE 754-2019 with overflow left out. It has every property that `Geometry` asks of
 a rounding.
 */
module Binary64 {
  import opened Common
  import opened Geometry

  function Pow2(k: nat): (p: nat)
    ensures p > 0
  {
    if k == 0 then 1 else 2 * Pow2(k - 1)
  }

  function NearestEven(x: real): int {
    var n := x.Floor;
    var d := x - n as real;
    if d < 0.5 || (d == 0.5 && n % 2 == 0) then n else n + 1
  }

  lemma NearestEvenClose(x: real)
    ensures -0.5 <= NearestEven(x) as real - x <= 0.5
  {
  }

  lemma NearestEvenMonotone(x: real, y: real)
    requires x <= y
    ensures NearestEven(x) <= NearestEven(y)
  {
    assert x.Floor <= y.Floor;
  }

  lemma NearestEvenExact(n: int)
    ensures NearestEven(n as real) == n
  {
  }

  // Products and quotients of two variables are named, so that a proof can leave them uninterpreted.

  function Times(a: real, b: real): real {
    a * b
  }

  function Over(x: real, u: real): real
    requires u > 0.0
  {
    x / u
  }

  lemma TimesMonotone(a: real, b: real, u: real)
    requires a <= b && u > 0.0
    ensures Times(a, u) <= Times(b, u)
  {
  }

  lemma TimesStrict(a: real, b: real, u: real)
    requires a < b && u > 0.0
    ensures Times(a, u) < Times(b, u)
  {
  }

  lemma TimesOver(x: real, u: real)
    requires u > 0.0
    ensures Times(Over(x, u), u) == x
  {
  }

  lemma OverTimes(a: real, u: real)
    requires u > 0.0
    ensures Over(Times(a, u), u) == a
  {
  }

  lemma Literals(u: real)
    ensures Times(9007199254740992.0, u) == 9007199254740992.0 * u
    ensures Times(4503599627370496.0, u) == 4503599627370496.0 * u
    ensures Times(0.0, u) == 0.0 && Times(0.5, u) == u / 2.0 && Times(-0.5, u) == -u / 2.0
  {
  }

  /** Comparing with a multiple is comparing the quotient. */
  lemma Compare(x: real, u: real, c: real)
    requires u > 0.0
    ensures Times(c, u) <= x <==> c <= Over(x, u)
  {
    hide Times, Over;
    TimesOver(x, u);
    if c <= Over(x, u) { TimesMonotone(c, Over(x, u), u); } else { TimesStrict(Over(x, u), c, u); }
  }

  lemma Halves(x: real, u: real)
    requires 0.0 < u && 9007199254740992.0 * u <= x
    ensures 0 <= Over(x, 2.0 * u).Floor < Over(x, u).Floor
  {
    Literals(u);
    Compare(x, u, 9007199254740992.0);
    HalfQuotient(x, u);
    hide Times, Over;
  }

  lemma HalfQuotient(x: real, u: real)
    requires u > 0.0
    ensures Over(x, 2.0 * u) == Over(x, u) / 2.0
  {
    var q := Over(x, u);
    assert Times(q / 2.0, 2.0 * u) == Times(q, u);
    OverTimes(q / 2.0, 2.0 * u);
    TimesOver(x, u);
  }

  /** The unit in the last place of `x`: the least doubling of `u` under which `x` needs at most 53 bits. */
  ghost function Ulp(x: real, u: real): (r: real)
    requires 0.0 <= x && 0.0 < u
    ensures u <= r && x < 9007199254740992.0 * r && (r == u || (2.0 * u <= r && 4503599627370496.0 * r <= x))
    decreases if 9007199254740992.0 * u <= x then Over(x, u).Floor else 0
  {
    if x < 9007199254740992.0 * u then u
    else
      Halves(x, u);
      Ulp(x, 2.0 * u)
  }

  lemma {:induction false} UlpMonotone(x: real, y: real, u: real)
    requires 0.0 <= x <= y && 0.0 < u
    ensures Ulp(x, u) == Ulp(y, u) || 2.0 * Ulp(x, u) <= Ulp(y, u)
    decreases if 9007199254740992.0 * u <= x then Over(x, u).Floor else 0
  {
    hide Over;
    if 9007199254740992.0 * u <= x {
      Halves(x, u);
      UlpMonotone(x, y, 2.0 * u);
    }
  }

  /** The nearest multiple of `u`. */
  ghost function Multiple(x: real, u: real): real
    requires u > 0.0
  {
    Times(NearestEven(Over(x, u)) as real, u)
  }

  lemma MultipleMonotone(x: real, y: real, u: real)
    requires x <= y && u > 0.0
    ensures Multiple(x, u) <= Multiple(y, u)
  {
    hide Times, Over, NearestEven;
    TimesOver(x, u);
    Compare(y, u, Over(x, u));
    NearestEvenMonotone(Over(x, u), Over(y, u));
    TimesMonotone(NearestEven(Over(x, u)) as real, NearestEven(Over(y, u)) as real, u);
  }

  lemma MultipleExact(n: int, u: real)
    requires u > 0.0
    ensures Multiple(Times(n as real, u), u) == Times(n as real, u)
  {
    hide Times, Over, NearestEven;
    OverTimes(n as real, u);
    NearestEvenExact(n);
  }

  lemma MultipleClose(x: real, u: real)
    requires u > 0.0
    ensures -u / 2.0 <= Multiple(x, u) - x <= u / 2.0
  {
    var q := Over(x, u);
    TimesOver(x, u);
    NearestEvenClose(q);
    TimesMonotone(-0.5, NearestEven(q) as real - q, u);
    TimesMonotone(NearestEven(q) as real - q, 0.5, u);
    Distributes(NearestEven(q) as real, q, u);
    Literals(u);
    hide Times, Over, NearestEven;
  }

  lemma Distributes(a: real, b: real, u: real)
    ensures Times(a - b, u) == Times(a, u) - Times(b, u)
  {
  }

  ghost function NearestPositive(tiny: real, x: real): real
    requires 0.0 < tiny && 0.0 <= x
  {
    Multiple(x, Ulp(x, tiny))
  }

  lemma PositiveMonotone(tiny: real, x: real, y: real)
    requires 0.0 < tiny && 0.0 <= x <= y
    ensures 0.0 <= NearestPositive(tiny, x) <= NearestPositive(tiny, y)
  {
    hide Multiple, Ulp, Times;
    var u, v := Ulp(x, tiny), Ulp(y, tiny);
    UlpMonotone(x, y, tiny);
    Literals(u);
    Literals(v);
    MultipleMonotone(0.0, x, u);
    MultipleExact(0, u);
    if u == v {
      MultipleMonotone(x, y, u);
    } else {
      MultipleMonotone(x, 9007199254740992.0 * u, u);
      MultipleExact(9007199254740992, u);
      MultipleMonotone(4503599627370496.0 * v, y, v);
      MultipleExact(4503599627370496, v);
    }
  }

  /** Half a unit of error is at most a part in 2^53 of a normal number. */
  lemma PositiveClose(tiny: real, x: real)
    requires 0.0 < tiny && 0.0 <= x && 4503599627370496.0 * Ulp(x, tiny) <= x
    ensures Abs(NearestPositive(tiny, x) - x) <= x / 9007199254740992.0
  {
    hide Multiple, Ulp;
    MultipleClose(x, Ulp(x, tiny));
  }

  lemma Reassociates(n: nat, j: int, u: real)
    ensures Scaled(n, Times(j as real, u)) == Times((n * j) as real, u)
  {
    assert (n * j) as real == n as real * j as real;
    assert n as real * (j as real * u) == (n as real * j as real) * u;
  }

  lemma NotSmaller(n: nat, x: real)
    requires n >= 1 && x > 0.0
    ensures Scaled(n, x) >= x
  {
  }

  /** A whole multiple of a representable number is a multiple of the least unit, or a normal number. */
  lemma MultipleIsClose(tiny: real, x: real, n: nat)
    requires 0.0 < tiny && 0.0 < x && NearestPositive(tiny, x) == x && n >= 1
    ensures Scaled(n, x) > 0.0
    ensures Abs(NearestPositive(tiny, Scaled(n, x)) - Scaled(n, x)) <= Scaled(n, x) / 9007199254740992.0
  {
    NotSmaller(n, x);
    var y := Scaled(n, x);
    var u, v := Ulp(x, tiny), Ulp(y, tiny);
    UlpMonotone(x, y, tiny);
    if v == tiny {
      assert u == tiny;
      var j := NearestEven(Over(x, u));
      assert x == Times(j as real, u);
      Reassociates(n, j, u);
      MultipleExact(n * j, u);
      hide Times, Scaled, Multiple, Ulp, NearestEven, Over;
      assert NearestPositive(tiny, y) == y;
    } else {
      hide Times, Scaled, Multiple, Ulp;
      PositiveClose(tiny, y);
    }
  }

  /** Up to 2^52 the unit is still a whole fraction of 1. */
  lemma {:induction false} UlpFraction(x: real, u: real, k: nat) returns (i: nat)
    requires 0.0 <= x <= 4503599627370496.0 && 0.0 < u && Times(Pow2(k) as real, u) == 1.0
    ensures Times(Pow2(i) as real, Ulp(x, u)) == 1.0
    decreases k
  {
    if x < 9007199254740992.0 * u {
      i := k;
    } else {
      OneFraction(u, k);
      hide Times, Over, Pow2;
      i := UlpFraction(x, 2.0 * u, k - 1);
    }
  }

  lemma OneFraction(u: real, k: nat)
    requires 0.0 < u <= 0.5 && Times(Pow2(k) as real, u) == 1.0
    ensures k > 0 && Times(Pow2(k - 1) as real, 2.0 * u) == 1.0
  {
    if k > 0 {
      var p := Pow2(k - 1) as real;
      assert Pow2(k) as real == 2.0 * p;
      assert (2.0 * p) * u == p * (2.0 * u);
    }
  }

  lemma PositiveHalf(tiny: real, k: nat, n: nat)
    requires 0.0 < tiny < 1.0 && Times(Pow2(k) as real, tiny) == 1.0 && n <= 9007199254740992
    ensures NearestPositive(tiny, Half(n)) == Half(n)
  {
    hide Times, Ulp, Multiple, Pow2, Over;
    var x := Half(n);
    var u := Ulp(x, tiny);
    var i := UlpFraction(x, tiny, k);
    if i == 0 {
      WholeUnit(u);
      Literals(u);
      MultipleExact(4503599627370496, u);
    } else {
      HalfMultiple(n, i, u);
      MultipleExact(n * Pow2(i - 1), u);
    }
  }

  lemma WholeUnit(u: real)
    requires Times(Pow2(0) as real, u) == 1.0
    ensures u == 1.0
  {
  }

  lemma HalfMultiple(n: nat, i: nat, u: real)
    requires i > 0 && Times(Pow2(i) as real, u) == 1.0
    ensures Times((n * Pow2(i - 1)) as real, u) == Half(n)
  {
    var p := Pow2(i - 1);
    assert Pow2(i) as real == 2.0 * p as real;
    assert p as real * u == 0.5;
    assert (n * p) as real == n as real * p as real;
    assert n as real * p as real * u == n as real * (p as real * u);
  }

  ghost function Nearest(tiny: real, x: real): real
    requires 0.0 < tiny
  {
    if x < 0.0 then -NearestPositive(tiny, -x) else NearestPositive(tiny, x)
  }

  lemma NearestMonotone(tiny: real, x: real, y: real)
    requires 0.0 < tiny && x <= y
    ensures Nearest(tiny, x) <= Nearest(tiny, y)
  {
    hide NearestPositive;
    if 0.0 <= x {
      PositiveMonotone(tiny, x, y);
    } else if y < 0.0 {
      PositiveMonotone(tiny, -y, -x);
    } else {
      PositiveMonotone(tiny, 0.0, -x);
      PositiveMonotone(tiny, 0.0, y);
    }
  }

  ghost function Tiny(k: nat): real {
    1.0 / Pow2(k) as real
  }

  /** Small enough for 2^-40 to be a normal number. */
  lemma TinyIsSmall(k: nat)
    requires k >= 92
    ensures 0.0 < Tiny(k) < 1.0 && Times(Pow2(k) as real, Tiny(k)) == 1.0 && 4503599627370496.0 * Tiny(k) <= SMALL
  {
    Pow2Grows(92, k);
    Pow2Of92();
    Reciprocal(Pow2(k));
  }

  lemma Reciprocal(p: nat)
    requires p >= 0x1000_0000_0000_0000_0000_0000
    ensures 0.0 < 1.0 / p as real && Times(p as real, 1.0 / p as real) == 1.0
    ensures 4503599627370496.0 * (1.0 / p as real) <= SMALL && 1.0 / p as real < 1.0
  {
    var t := 1.0 / p as real;
    assert t * p as real == 1.0;
    assert t > 0.0;
    assert t * 0x1000_0000_0000_0000_0000_0000 as real <= t * p as real;
  }

  lemma {:induction false} Pow2Grows(a: nat, b: nat)
    requires a <= b
    ensures Pow2(a) <= Pow2(b)
    decreases b
  {
    if a < b { Pow2Grows(a, b - 1); }
  }

  lemma {:induction false} Pow2Add(a: nat, b: nat)
    ensures Pow2(a + b) == Pow2(a) * Pow2(b)
  {
    if b > 0 { Pow2Add(a, b - 1); }
  }

  lemma Pow2Of92()
    ensures Pow2(92) == 0x1000_0000_0000_0000_0000_0000
  {
    var n := 12;
    assert Pow2(n) == 4096;
    Pow2Add(n - 1, n);
    Pow2Add(2 * n - 1, 2 * n - 1);
    Pow2Add(4 * n - 2, 4 * n - 2);
    assert Pow2(n - 1) == 2048;
  }

  /** `tiny` is a power of two, small enough for 2^-40 to be a normal number. */
  ghost predicate Least(tiny: real) {
    0.0 < tiny < 1.0 && 4503599627370496.0 * tiny <= SMALL && exists k :: Times(Pow2(k) as real, tiny) == 1.0
  }

  lemma NearestHalf(tiny: real, n: int)
    requires Least(tiny) && -0x20_0000_0000_0000 <= n <= 0x20_0000_0000_0000
    ensures Nearest(tiny, Half(n)) == Half(n)
  {
    hide Times, Pow2, NearestPositive;
    var k :| Times(Pow2(k) as real, tiny) == 1.0;
    PositiveHalf(tiny, k, if n < 0 then -n else n);
    assert n < 0 ==> -Half(n) == Half(-n);
  }

  lemma NearestClose(tiny: real, x: real)
    requires Least(tiny) && SMALL <= x
    ensures Abs(Nearest(tiny, x) - x) <= x * EPS
  {
    hide Times, Pow2, NearestPositive, Ulp;
    assert 4503599627370496.0 * Ulp(x, tiny) <= x;
    PositiveClose(tiny, x);
  }

  lemma NearestMultiple(tiny: real, x: real, n: nat)
    requires Least(tiny) && 0.0 < x && Nearest(tiny, x) == x && 1 <= n
    ensures Abs(Nearest(tiny, Scaled(n, x)) - Scaled(n, x)) <= Scaled(n, x) * EPS
  {
    hide Times, Pow2, NearestPositive, Ulp, Scaled;
    MultipleIsClose(tiny, x, n);
  }

  lemma AllMonotone(tiny: real, rnd: real -> real)
    requires Least(tiny) && forall x :: rnd(x) == Nearest(tiny, x)
    ensures Monotone(rnd)
  {
    hide Nearest;
    forall x, y | x <= y ensures rnd(x) <= rnd(y) { NearestMonotone(tiny, x, y); }
  }

  lemma AllExactOnHalves(tiny: real, rnd: real -> real)
    requires Least(tiny) && forall x :: rnd(x) == Nearest(tiny, x)
    ensures ExactOnHalves(rnd)
  {
    hide Nearest, Half, Least;
    forall n: int | -0x20_0000_0000_0000 <= n <= 0x20_0000_0000_0000 ensures rnd(Half(n)) == Half(n) {
      NearestHalf(tiny, n);
    }
  }

  lemma AllClose(tiny: real, rnd: real -> real)
    requires Least(tiny) && forall x :: rnd(x) == Nearest(tiny, x)
    ensures RelativelyClose(rnd) && CloseOnMultiples(rnd)
  {
    hide Nearest, Scaled;
    forall x | SMALL <= x ensures Abs(rnd(x) - x) <= x * EPS { NearestClose(tiny, x); }
    forall x: real, n: nat | 0.0 < x && rnd(x) == x && 1 <= n <= U32_MAX
      ensures Abs(rnd(Scaled(n, x)) - Scaled(n, x)) <= Scaled(n, x) * EPS
    {
      NearestMultiple(tiny, x, n);
    }
  }

  /** Round-to-nearest binary64 is a rounding in the sense of the geometry results. */
  lemma NearestIsRounding()
    ensures 0.0 < Tiny(1074) && Rounding((x: real) => Nearest(Tiny(1074), x))
  {
    TinyIsSmall(1074);
    hide Nearest, Tiny, Times, Pow2, Monotone, ExactOnHalves, RelativelyClose, CloseOnMultiples;
    var tiny := Tiny(1074);
    var rnd: real -> real := x => Nearest(tiny, x);
    assert Least(tiny);
    AllMonotone(tiny, rnd);
    AllExactOnHalves(tiny, rnd);
    AllClose(tiny, rnd);
  }
}
