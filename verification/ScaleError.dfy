/**
 * How far the approximation of a price can be off: by less than one part in 2^18, unless an
 * end of the range is used.  So two ratios that differ in the 16 bits they have are never
 * turned around.
 */
module ScaleError {
  import opened Prices
  import opened PriceScale

  /** A price as a number. */
  ghost function Val(p: Price): real {
    p.base as real / p.quote as real
  }

  /** Ratios have 16 bits. */
  const MAX_RATIO: nat := 65535

  /** While a fraction between 2^-19 and 2^19 does not fit, both its parts are at least this. */
  const LEAST: nat := 1_900_000_000
  const RANGE: real := 524288.0
  const EPSILON: real := 1.0 / 262144.0
  ghost const SLACK: real := 4.0 / LEAST as real

  /** What the value of a fraction can still grow to by halving: the larger the denominator, the less. */
  ghost function Bound(a: nat, b: nat): real
    requires b > 0
  {
    a as real / b as real * (1.0 + SLACK - 2.0 / b as real)
  }

  lemma ValInverse(p: Price)
    ensures Val(p) > 0.0 && Val(Inverse(p)) > 0.0 && Val(p) * Val(Inverse(p)) == 1.0
  {
  }

  lemma AtMostIsVal(p: Price, q: Price)
    ensures AtMost(p, q) <==> Val(p) <= Val(q)
  {
    var a, b, c, d := p.base as real, p.quote as real, q.base as real, q.quote as real;
    assert AtMost(p, q) <==> a * d <= c * b by {
      assert (p.base * q.quote) as real == a * d && (q.base * p.quote) as real == c * b;
    }
    CrossReal(a, b, c, d);
  }

  lemma CrossReal(a: real, b: real, c: real, d: real)
    requires b > 0.0 && d > 0.0
    ensures a * d <= c * b <==> a / b <= c / d
  {
    var x, y := a / b, c / d;
    assert a == x * b && c == y * d;
    assert a * d == x * (b * d) && c * b == y * (b * d);
    assert b * d > 0.0;
    if x <= y { assert x * (b * d) <= y * (b * d); } else { assert x * (b * d) > y * (b * d); }
  }

  /** One halving, in terms of the value y and the inverse t of the denominator before, and z and u afterwards. */
  lemma HalfStep(y: real, t: real, z: real, u: real, slack: real)
    requires y >= 0.0 && 0.0 < t <= 0.25 && 4.0 * t <= slack <= 0.5 && z >= 0.0 && u >= 2.0 * t
    requires z * (1.0 - t) <= y
    ensures z <= y * (1.0 + slack - 2.0 * t)
    ensures z * (1.0 + slack - 2.0 * u) <= y * (1.0 + slack - 2.0 * t)
  {
    var k := 1.0 + slack - 2.0 * t;
    var m := (1.0 - t) * k;
    Product(t, slack, k);
    assert z * m <= y * k by { Scaled(z, 1.0 - t, y, k); }
    assert z * 1.0 <= z * m by { MulReal(1.0, m, z); }
    var w := 1.0 + slack - 2.0 * u;
    assert w <= m;
    MulReal(w, m, z);
    assert z * w <= y * k;
  }

  lemma Product(t: real, slack: real, k: real)
    requires 0.0 < t <= 0.25 && 4.0 * t <= slack <= 0.5 && k == 1.0 + slack - 2.0 * t
    ensures (1.0 - t) * k >= 1.0 && (1.0 - t) * k >= 1.0 + slack - 4.0 * t
  {
    assert (1.0 - t) * k == 1.0 + slack - 3.0 * t - slack * t + 2.0 * (t * t);
    assert slack * t <= 0.5 * t by { MulReal(slack, 0.5, t); }
    assert t * t >= 0.0;
  }

  lemma MulReal(x: real, y: real, d: real)
    requires x <= y && d >= 0.0
    ensures x * d <= y * d && d * x <= d * y
  {
  }

  lemma Scaled(z: real, s: real, y: real, k: real)
    requires z * s <= y && k >= 0.0
    ensures z * (s * k) <= y * k
  {
    assert z * (s * k) == (z * s) * k;
    MulReal(z * s, y, k);
  }

  /** Halving both parts, and perhaps reducing, in whole numbers. */
  lemma Halved(a: nat, b: nat, c: nat, d: nat)
    requires a > 0 && b >= LEAST && c > 0 && d > 0 && d <= b / 2 && c * (b / 2) == (a / 2) * d
    ensures c as real / d as real <= Bound(a, b) && Bound(c, d) <= Bound(a, b)
  {
    hide Bound;
    HalvedParts(a, b, c, d);
    HalvedValue(a, b, c, d);
    HalvedBound(a, b, c, d);
  }

  lemma HalvedBound(a: nat, b: nat, c: nat, d: nat)
    requires b >= LEAST && d > 0 && 2 * d <= b && c as real / d as real * (1.0 - 1.0 / b as real) <= a as real / b as real
    ensures c as real / d as real <= Bound(a, b) && Bound(c, d) <= Bound(a, b)
  {
    hide Bound;
    BoundByInverse(a, b);
    BoundByInverse(c, d);
    SmallInverse(b);
    InverseMono(d, b);
    HalfStep(a as real / b as real, 1.0 / b as real, c as real / d as real, 1.0 / d as real, SLACK);
  }

  lemma BoundByInverse(a: nat, b: nat)
    requires b > 0
    ensures a as real / b as real >= 0.0 && 1.0 / b as real > 0.0
    ensures Bound(a, b) == a as real / b as real * (1.0 + SLACK - 2.0 * (1.0 / b as real))
  {
    assert 2.0 / b as real == 2.0 * (1.0 / b as real);
  }

  lemma SmallInverse(b: nat)
    requires b >= LEAST
    ensures 1.0 / b as real <= 0.25 && 4.0 * (1.0 / b as real) <= SLACK <= 0.5
  {
    var t, r := 1.0 / b as real, 1.0 / LEAST as real;
    assert t * b as real == 1.0 && r * LEAST as real == 1.0;
    CrossReal(1.0, b as real, 1.0, LEAST as real);
  }

  lemma InverseMono(d: nat, b: nat)
    requires 0 < d && 2 * d <= b
    ensures 1.0 / d as real >= 2.0 * (1.0 / b as real)
  {
    CrossReal(2.0, b as real, 1.0, d as real);
    assert 2.0 / b as real == 2.0 * (1.0 / b as real);
  }

  lemma HalvedValue(a: nat, b: nat, c: nat, d: nat)
    requires a > 0 && b >= 2 && c > 0 && d > 0 && c * (b - 1) <= a * d
    ensures c as real / d as real * (1.0 - 1.0 / b as real) <= a as real / b as real
  {
    var p, q, r, x := a as real, b as real, d as real, c as real;
    RealProduct(c, b - 1);
    RealProduct(a, d);
    assert (b - 1) as real == q - 1.0;
    Quotients(x, p, q, r);
  }

  lemma RealProduct(x: nat, y: nat)
    ensures (x * y) as real == x as real * y as real
  {
  }

  lemma Quotients(x: real, p: real, q: real, r: real)
    requires q > 0.0 && r > 0.0 && x * (q - 1.0) <= p * r
    ensures x / r * (1.0 - 1.0 / q) <= p / q
  {
    FractionProduct(x, r, q);
    CommonFactor(p, q, r);
    assert r * q > 0.0;
    CrossReal(x * (q - 1.0), r * q, p * r, r * q);
    MulReal(x * (q - 1.0), p * r, r * q);
  }

  lemma HalvedParts(a: nat, b: nat, c: nat, d: nat)
    requires b >= 2 && c * (b / 2) == (a / 2) * d
    ensures c * (b - 1) <= a * d
  {
    MulMono(b - 1, 2 * (b / 2), c);
    MulMono(2 * (a / 2), a, d);
    Doubled(c, b / 2);
    Doubled(d, a / 2);
  }

  lemma Doubled(x: nat, y: nat)
    ensures x * (2 * y) == 2 * (x * y) && (2 * y) * x == 2 * (y * x)
  {
  }

  lemma FractionProduct(c: real, r: real, q: real)
    requires r > 0.0 && q > 0.0
    ensures c / r * (1.0 - 1.0 / q) == (c * (q - 1.0)) / (r * q)
  {
    var x, t := c / r, 1.0 / q;
    assert x * r == c && t * q == 1.0;
    assert x * (1.0 - t) * (r * q) == c * (q - 1.0);
    assert r * q > 0.0;
  }

  lemma CommonFactor(p: real, q: real, r: real)
    requires r > 0.0 && q > 0.0
    ensures p / q == (p * r) / (r * q)
  {
    var x := p / q;
    assert x * q == p;
    assert x * (r * q) == p * r;
    assert r * q > 0.0;
  }

  lemma {:induction false} ShrinkError(f: Price)
    requires f.base >= LEAST && f.quote >= LEAST
    requires Bound(f.base, f.quote) <= RANGE && Bound(f.quote, f.base) <= RANGE
    ensures Val(Shrink(f).0) <= Bound(f.base, f.quote) && Val(Inverse(Shrink(f).0)) <= Bound(f.quote, f.base)
    decreases f.base + f.quote
  {
    if Fits(f) {
      BoundIsAbove(f.base, f.quote);
      BoundIsAbove(f.quote, f.base);
    } else {
      hide Bound;
      var g := Reduce(f.base / 2, f.quote / 2);
      Halved(f.base, f.quote, g.base, g.quote);
      Halved(f.quote, f.base, g.quote, g.base);
      if !Fits(g) {
        LargeParts(g);
        ShrinkError(g);
      }
    }
  }

  lemma BoundIsAbove(a: nat, b: nat)
    requires b >= LEAST
    ensures a as real / b as real <= Bound(a, b) <= a as real / b as real * (1.0 + SLACK)
  {
    SmallInverse(b);
    var t, y := 1.0 / b as real, a as real / b as real;
    assert 2.0 / b as real == 2.0 * t && t * b as real == 1.0;
    MulReal(1.0, 1.0 + SLACK - 2.0 * t, y);
    MulReal(1.0 + SLACK - 2.0 * t, 1.0 + SLACK, y);
  }

  /** A fraction that does not fit and is not far from one has two large parts. */
  lemma LargeParts(g: Price)
    requires !Fits(g) && Val(g) <= RANGE && Val(Inverse(g)) <= RANGE
    ensures g.base >= LEAST && g.quote >= LEAST
  {
    LargePart(g.base, g.quote);
    LargePart(g.quote, g.base);
  }

  lemma LargePart(a: nat, b: nat)
    requires b > 0 && a as real / b as real <= RANGE
    ensures a > MAX_SHARE_SUPPLY ==> b >= LEAST
  {
    var y := a as real / b as real;
    assert y * b as real == a as real;
    MulReal(y, RANGE, b as real);
  }

  /** Off by at most one part in 2^18. */
  ghost predicate Close(r: real, e: real) {
    e * (1.0 - EPSILON) <= r <= e * (1.0 + EPSILON)
  }

  lemma ShrinkIsClose(exact: Price)
    requires !Fits(exact) && 1.0 / 262144.0 <= Val(exact) <= 262144.0
    ensures Close(Val(Shrink(exact).0), Val(exact))
  {
    hide Bound, Close, Shrink, Fits;
    var e, r := Val(exact), Val(Shrink(exact).0);
    ValInverse(exact);
    InverseAtMost(Val(exact), Val(Inverse(exact)));
    LargeParts(exact);
    BoundIsAbove(exact.base, exact.quote);
    BoundIsAbove(exact.quote, exact.base);
    SmallInverse(LEAST);
    RaisedInRange(e);
    RaisedInRange(Val(Inverse(exact)));
    ShrinkError(exact);
    ValInverse(Shrink(exact).0);
    BothSides(r, Val(Inverse(Shrink(exact).0)), e, Val(Inverse(exact)), SLACK);
  }

  lemma InverseAtMost(e: real, i: real)
    requires e > 0.0 && i > 0.0 && e * i == 1.0 && e >= 1.0 / 262144.0
    ensures i <= 262144.0
  {
    if i > 262144.0 { MulReal(1.0 / 262144.0, e, i); }
  }

  lemma RaisedInRange(y: real)
    requires y <= 262144.0
    ensures 0.0 <= SLACK <= EPSILON && y * (1.0 + SLACK) <= RANGE
  {
    SmallInverse(LEAST);
    MulReal(y, 262144.0, 1.0 + SLACK);
  }

  lemma Cancelled(e: real, r: real, s: real)
    requires r * s == 1.0
    ensures r * (e * s) == e
  {
    assert r * (e * s) == e * (r * s);
  }

  lemma OtherSide(r: real, s: real, e: real, i: real, k: real)
    requires r > 0.0 && e > 0.0 && r * s == 1.0 && e * i == 1.0 && s <= i * k
    ensures e <= r * k
  {
    MulReal(s, i * k, e * r);
    assert s * (e * r) == e by { Cancelled(e, r, s); }
    assert (i * k) * (e * r) == r * k by { Cancelled(r * k, e, i); }
  }

  /** A number and its inverse, both at most a little above another number and its inverse. */
  lemma BothSides(r: real, s: real, e: real, i: real, slack: real)
    requires r > 0.0 && s > 0.0 && e > 0.0 && i > 0.0 && r * s == 1.0 && e * i == 1.0
    requires 0.0 <= slack <= EPSILON && r <= e * (1.0 + slack) && s <= i * (1.0 + slack)
    ensures Close(r, e)
  {
    MulReal(1.0 + slack, 1.0 + EPSILON, e);
    OtherSide(r, s, e, i, 1.0 + slack);
    var q := 1.0 - slack;
    assert e * q <= r * (1.0 + slack) * q by { MulReal(e, r * (1.0 + slack), q); }
    assert r * (1.0 + slack) * q == r - r * (slack * slack);
    assert r * (slack * slack) >= 0.0;
    MulReal(1.0 - EPSILON, q, e);
  }

  /** Far from one, the whole number is close. */
  lemma RoundedIsClose(exact: Price)
    requires Val(exact) >= 262144.0 || Val(exact) <= 1.0 / 262144.0
    requires Rounded(exact).base < MAX_SHARE_SUPPLY && Rounded(exact).quote < MAX_SHARE_SUPPLY
    ensures Close(Val(Rounded(exact)), Val(exact))
  {
    AtMostIsVal(exact, Pair(1, 1));
    if Val(exact) >= 262144.0 {
      FloorIsNear(exact.base, exact.quote);
      assert Val(Rounded(exact)) == DivDown(exact.base, exact.quote) as real;
      MulReal(262144.0, Val(exact), EPSILON);
    } else {
      SmallRoundedIsClose(exact, DivDown(exact.quote, exact.base));
    }
  }

  lemma SmallRoundedIsClose(exact: Price, k: nat)
    requires Val(exact) <= 1.0 / 262144.0 && k == DivDown(exact.quote, exact.base) > 0
    ensures Close(Val(Pair(1, k)), Val(exact))
  {
    var e, i, r := Val(exact), Val(Inverse(exact)), Val(Pair(1, k));
    ValInverse(exact);
    FloorIsNear(exact.quote, exact.base);
    assert r * k as real == 1.0;
    InverseAtLeast(e, i);
    assert k >= 262144;
    MulReal(262144.0, k as real, EPSILON);
    OtherSide(e, i, r, k as real, 1.0 + EPSILON);
    OtherSide(r, k as real, e, i, 1.0);
    MulReal(1.0 - EPSILON, 1.0, e);
  }

  lemma InverseAtLeast(e: real, i: real)
    requires e > 0.0 && i > 0.0 && e * i == 1.0 && e <= 1.0 / 262144.0
    ensures i >= 262144.0
  {
    if i < 262144.0 { MulReal(e, 1.0 / 262144.0, i); }
  }

  lemma FloorIsNear(a: nat, b: nat)
    requires b > 0
    ensures a as real / b as real - 1.0 < DivDown(a, b) as real <= a as real / b as real
  {
    var q, n, d := DivDown(a, b), a as real, b as real;
    assert (q + 1) * b > a;
    RealProduct(q, b);
    RealProduct(q + 1, b);
    Between(q as real, n, d, (q + 1) as real);
  }

  lemma Between(q: real, n: real, d: real, r: real)
    requires d > 0.0 && q * d <= n < r * d
    ensures q <= n / d < r
  {
    var y := n / d;
    assert y * d == n;
    if y < q { MulStrictReal(y, q, d); }
    if r <= y { MulReal(r, y, d); }
  }

  lemma MulStrictReal(x: real, y: real, d: real)
    requires x < y && d > 0.0
    ensures x * d < y * d
  {
  }

  ghost function Distance(x: real, y: real): real {
    if x >= y then x - y else y - x
  }

  /** The code compares distances over common denominators. */
  lemma NearerIsDistance(f: Price, g: Price, target: Price)
    ensures Nearer(f, g, target) <==> Distance(Val(f), Val(target)) < Distance(Val(g), Val(target))
  {
    hide Gap, Distance, Val;
    var x, y := Distance(Val(f), Val(target)), Distance(Val(g), Val(target));
    GapIsDistance(f, target);
    GapIsDistance(g, target);
    RealProduct(Gap(f, target), g.quote);
    RealProduct(Gap(g, target), f.quote);
    SameFactor(x, y, f.quote as real, g.quote as real, target.quote as real);
  }

  lemma SameFactor(x: real, y: real, a: real, b: real, t: real)
    requires a > 0.0 && b > 0.0 && t > 0.0
    ensures x * (a * t) * b < y * (b * t) * a <==> x < y
  {
    var k := a * t * b;
    assert x * (a * t) * b == x * k && y * (b * t) * a == y * k;
    assert k > 0.0 by { assert a * t > 0.0; }
    if x < y { MulStrictReal(x, y, k); } else { MulReal(y, x, k); }
  }

  lemma GapIsDistance(f: Price, g: Price)
    ensures Gap(f, g) as real == Distance(Val(f), Val(g)) * (f.quote as real * g.quote as real)
  {
    var a, b, c, d := f.base as real, f.quote as real, g.base as real, g.quote as real;
    RealProduct(f.base, g.quote);
    RealProduct(g.base, f.quote);
    Crossed(a, b, c, d);
    AtMostIsVal(g, f);
  }

  lemma Crossed(a: real, b: real, c: real, d: real)
    requires b > 0.0 && d > 0.0
    ensures (a / b - c / d) * (b * d) == a * d - c * b
  {
    var x, y := a / b, c / d;
    assert x * b == a && y * d == c;
    assert (x - y) * (b * d) == (x * b) * d - (y * d) * b;
  }

  const HIGHEST: Price := Pair(MAX_SHARE_SUPPLY, 1)
  const LOWEST: Price := Pair(1, MAX_SHARE_SUPPLY)

  /** Beyond an end of the range the end is used; inside it the approximation is close. */
  lemma ApproximateError(exact: Price)
    ensures AtMost(HIGHEST, exact) ==> Approximate(exact) == HIGHEST
    ensures AtMost(exact, LOWEST) ==> Approximate(exact) == LOWEST
    ensures Less(LOWEST, exact) && Less(exact, HIGHEST) ==> Close(Val(Approximate(exact)), Val(exact))
  {
    if AtMost(HIGHEST, exact) { AboveTheRange(exact); }
    if AtMost(exact, LOWEST) { BelowTheRange(exact); }
    if Less(LOWEST, exact) && Less(exact, HIGHEST) { InsideTheRange(exact); }
  }

  lemma AboveTheRange(exact: Price)
    requires AtMost(HIGHEST, exact)
    ensures Approximate(exact) == HIGHEST
  {
    DivDownAtLeast(exact.base, exact.quote, MAX_SHARE_SUPPLY);
  }

  lemma BelowTheRange(exact: Price)
    requires AtMost(exact, LOWEST)
    ensures Approximate(exact) == LOWEST
  {
    DivDownAtLeast(exact.quote, exact.base, MAX_SHARE_SUPPLY);
  }

  lemma InsideTheRange(exact: Price)
    requires Less(LOWEST, exact) && Less(exact, HIGHEST)
    ensures Close(Val(Approximate(exact)), Val(exact))
  {
    var e, r := Val(exact), Val(Approximate(exact));
    ValInverse(exact);
    if Fits(exact) {
      SameIsClose(e);
    } else {
      DivDownAtLeast(exact.base, exact.quote, MAX_SHARE_SUPPLY);
      DivDownAtLeast(exact.quote, exact.base, MAX_SHARE_SUPPLY);
      NearestIsClose(exact);
    }
  }

  lemma SameIsClose(e: real)
    requires e >= 0.0
    ensures Close(e, e)
  {
  }

  lemma NearestIsClose(exact: Price)
    requires !Fits(exact) && exact.base > 1 && exact.quote > 1
    requires Rounded(exact).base < MAX_SHARE_SUPPLY && Rounded(exact).quote < MAX_SHARE_SUPPLY
    ensures Close(Val(Approximate(exact)), Val(exact))
  {
    hide Approximate, Shrink, Rounded, Nearer, Close, Distance, Fits;
    var e, r := Val(exact), Val(Approximate(exact));
    ApproximateIsNearest(exact);
    NearerIsDistance(Rounded(exact), Approximate(exact), exact);
    NearerIsDistance(Shrink(exact).0, Approximate(exact), exact);
    if 1.0 / 262144.0 <= e <= 262144.0 {
      ShrinkIsClose(exact);
      NearerIsClose(r, Val(Shrink(exact).0), e);
    } else {
      RoundedIsClose(exact);
      NearerIsClose(r, Val(Rounded(exact)), e);
    }
  }

  lemma NearerIsClose(r: real, candidate: real, e: real)
    requires Close(candidate, e) && Distance(r, e) <= Distance(candidate, e)
    ensures Close(r, e)
  {
  }

  /** Two ratios of 16 bits over the same price keep their order through the approximation. */
  lemma ApproximateKeepsOrder(x: Price, y: Price, n: nat, m: nat)
    requires 0 < n < m <= MAX_RATIO && Val(x) * m as real == Val(y) * n as real
    ensures AtMost(Approximate(x), Approximate(y))
  {
    hide Approximate, Close;
    ValInverse(x);
    ValInverse(y);
    RatiosApart(Val(x), Val(y), n, m);
    if AtMost(HIGHEST, y) {
      ApproximateError(y);
    } else if AtMost(x, LOWEST) {
      ApproximateError(x);
    } else {
      AtMostIsVal(HIGHEST, x);
      AtMostIsVal(HIGHEST, y);
      AtMostIsVal(x, LOWEST);
      AtMostIsVal(y, LOWEST);
      ApproximateError(x);
      ApproximateError(y);
      CloseKeepsOrder(Val(Approximate(x)), Val(x), Val(Approximate(y)), Val(y));
      AtMostIsVal(Approximate(x), Approximate(y));
    }
  }

  lemma RatiosApart(x: real, y: real, n: nat, m: nat)
    requires y > 0.0 && 0 < n < m <= MAX_RATIO && x * m as real == y * n as real
    ensures x <= y && y <= (y - x) * 65535.0
  {
    var k, l := m as real, n as real;
    assert l <= k - 1.0;
    Distribute(y, x, k);
    DistributeRight(y, k, l);
    MulReal(1.0, k - l, y);
    assert y <= (y - x) * k;
    if y < x { MulReal(y - x, 0.0, k); }
    MulReal(k, 65535.0, y - x);
  }

  lemma Distribute(x: real, y: real, k: real)
    ensures (x - y) * k == x * k - y * k
  {
  }

  lemma DistributeRight(y: real, k: real, l: real)
    ensures y * (k - l) == y * k - y * l
  {
  }

  lemma CloseKeepsOrder(r: real, x: real, s: real, y: real)
    requires Close(r, x) && Close(s, y) && 0.0 <= x <= y && y <= (y - x) * 65535.0
    ensures r <= s
  {
  }

  /**
   * Of two ratios of 16 bits over the same numerator, the larger divisor never gives the higher
   * price, however the products are rounded.
   */
  lemma LargerDivisorScalesLower(p: Price, num: nat, n: nat, m: nat)
    requires 0 < num && 0 < n <= m <= MAX_RATIO
    ensures AtMost(Scale(p, num, m), Scale(p, num, n))
  {
    hide Approximate, Fits, AtMost, Less;
    ScaleKeepsSide(p, num, m);
    ScaleKeepsSide(p, num, n);
    if n == m {
      LessOrAtMost(Scale(p, num, m), Scale(p, num, m));
    } else if n <= num <= m {
      BelowAbove(Scale(p, num, m), p, Scale(p, num, n));
    } else {
      var exactX, exactY := Reduce(p.base * num, p.quote * m), Reduce(p.base * num, p.quote * n);
      ExactRatio(p, num, m, exactX);
      ExactRatio(p, num, n, exactY);
      ApproximateKeepsOrder(exactX, exactY, n, m);
      SameSide(p, Approximate(exactX), Approximate(exactY));
    }
  }

  /** Two approximations in order, each replaced by the original price if it is on the wrong side of that, stay in order. */
  lemma SameSide(p: Price, x: Price, y: Price)
    requires AtMost(x, y)
    ensures AtMost(p, p) && (Less(p, x) ==> Less(p, y)) && (Less(y, p) ==> Less(x, p))
    ensures (!Less(p, x) ==> AtMost(x, p)) && (!Less(y, p) ==> AtMost(p, y))
  {
    if AtMost(y, p) { BelowAbove(x, y, p); }
    if AtMost(p, x) { BelowAbove(p, x, y); }
  }

  lemma LessOrAtMost(a: Price, b: Price)
    ensures (Less(a, b) <==> !AtMost(b, a)) && (a == b ==> AtMost(a, b))
  {
  }

  /** The fraction before rounding, as a number. */
  lemma ExactRatio(p: Price, num: nat, den: nat, exact: Price)
    requires num > 0 && den > 0 && exact.base * (p.quote * den) == p.base * num * exact.quote
    ensures Val(exact) * den as real == Val(p) * num as real
  {
    var a, b, c, d := p.base as real, p.quote as real, exact.base as real, exact.quote as real;
    RealProduct(p.quote, den);
    RealProduct(exact.base, p.quote * den);
    RealProduct(p.base, num);
    RealProduct(p.base * num, exact.quote);
    CrossEqual(a, b, c, d, num as real, den as real);
  }

  lemma CrossEqual(a: real, b: real, c: real, d: real, num: real, den: real)
    requires b > 0.0 && d > 0.0 && c * (b * den) == a * num * d
    ensures c / d * den == a / b * num
  {
    var x, y := a / b, c / d;
    assert x * b == a && y * d == c;
    assert (y * den) * (b * d) == c * (b * den);
    assert (x * num) * (b * d) == a * num * d;
    SameProduct(y * den, x * num, b * d);
  }

  lemma SameProduct(x: real, y: real, k: real)
    requires k > 0.0 && x * k == y * k
    ensures x == y
  {
    if x < y { MulStrictReal(x, y, k); }
    if y < x { MulStrictReal(y, x, k); }
  }

  /** Before rounding, a higher price scales to a higher one. */
  lemma ReduceIsMonotone(p: Price, q: Price, num: nat, den: nat)
    requires num > 0 && den > 0 && AtMost(p, q)
    ensures AtMost(Reduce(p.base * num, p.quote * den), Reduce(q.base * num, q.quote * den))
  {
    hide Val, AtMost;
    var x, y := Reduce(p.base * num, p.quote * den), Reduce(q.base * num, q.quote * den);
    ExactRatio(p, num, den, x);
    ExactRatio(q, num, den, y);
    AtMostIsVal(p, q);
    AtMostIsVal(x, y);
    MulReal(Val(p), Val(q), num as real);
    if Val(y) < Val(x) { MulStrictReal(Val(y), Val(x), den as real); }
  }
}
