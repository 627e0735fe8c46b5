/**
 * Multiplying a price by a ratio.  The product is kept as a reduced fraction;
 * when it no longer fits in share amounts it is halved until it does, and the
 * approximation may not move the price to the wrong side of the original.
 */
module PriceScale {
  import opened Prices

  function Gcd(a: nat, b: nat): (g: nat)
    requires a > 0 || b > 0
    ensures g > 0 && a % g == 0 && b % g == 0
    decreases b
  {
    if b == 0 then a
    else
      var g := Gcd(b, a % b);
      DividesBack(a, b, g);
      g
  }

  /** A divisor of `b` and of the remainder of `a` by `b` divides `a`. */
  lemma DividesBack(a: nat, b: nat, g: nat)
    requires b > 0 && g > 0 && b % g == 0 && (a % b) % g == 0
    ensures a % g == 0
  {
    var k, m := b / g, (a % b) / g;
    assert a == (a / b) * b + a % b;
    assert b == k * g && a % b == m * g;
    assert a == ((a / b) * k + m) * g by {
      assert (a / b) * (k * g) == (a / b) * k * g;
    }
    MultipleHasNoRemainder((a / b) * k + m, g);
  }

  lemma MultipleHasNoRemainder(q: nat, g: nat)
    requires g > 0
    ensures (q * g) % g == 0
    ensures (q * g) / g == q
  {
    var x := q * g;
    assert x == (x / g) * g + x % g;
    if x / g < q {
      MulMono(x / g + 1, q, g);
    } else if x / g > q {
      MulMono(q + 1, x / g, g);
    }
  }

  /** The fraction n/d in lowest terms. */
  function Reduce(n: nat, d: nat): (f: Price)
    requires n > 0 && d > 0
    ensures f.base * d == n * f.quote
    ensures f.base <= n && f.quote <= d
  {
    var g := Gcd(n, d);
    ReduceKeepsValue(n, d, g);
    Pair(n / g, d / g)
  }

  lemma ReduceKeepsValue(n: nat, d: nat, g: nat)
    requires n > 0 && d > 0 && g > 0 && n % g == 0 && d % g == 0
    ensures 0 < n / g <= n && 0 < d / g <= d
    ensures (n / g) * d == n * (d / g)
  {
    var a, b := n / g, d / g;
    assert n == a * g && d == b * g;
    MulMono(1, g, a);
    MulMono(1, g, b);
    Comm3(a, b, g);
  }

  predicate Fits(f: Price) {
    f.base <= MAX_SHARE_SUPPLY && f.quote <= MAX_SHARE_SUPPLY
  }

  /** The result of the halving loop on `f`, and whether an end of the range was used instead. */
  function Shrink(f: Price): (r: (Price, bool))
    ensures Fits(r.0)
    decreases f.base + f.quote
  {
    if Fits(f) then (f, false)
    else if f.base == 1 then (Pair(1, MAX_SHARE_SUPPLY), true)
    else if f.quote == 1 then (Pair(MAX_SHARE_SUPPLY, 1), true)
    else Shrink(Reduce(f.base / 2, f.quote / 2))
  }

  /** Whole-number approximation of a fraction, on whichever side is at least one. */
  function Rounded(f: Price): (r: Price)
    ensures Fits(r)
  {
    if f.base > f.quote
    then Pair(if DivideAtLeastOne(f.base, f.quote) > MAX_SHARE_SUPPLY then MAX_SHARE_SUPPLY
              else DivideAtLeastOne(f.base, f.quote), 1)
    else Pair(1, if DivideAtLeastOne(f.quote, f.base) > MAX_SHARE_SUPPLY then MAX_SHARE_SUPPLY
              else DivideAtLeastOne(f.quote, f.base))
  }

  function DivideAtLeastOne(a: nat, b: nat): (q: nat)
    requires 0 < b <= a
    ensures q >= 1
  {
    DivDownAtLeast(a, b, 1);
    DivDown(a, b)
  }

  /** Numerator of the distance between two fractions over their common denominator. */
  function Gap(f: Price, g: Price): nat {
    if f.base * g.quote >= g.base * f.quote then f.base * g.quote - g.base * f.quote
    else g.base * f.quote - f.base * g.quote
  }

  /** Whether `f` is strictly nearer to `target` than `g` is. */
  predicate Nearer(f: Price, g: Price, target: Price) {
    Gap(f, target) * g.quote < Gap(g, target) * f.quote
  }

  /** The approximation used for a fraction that does not fit. */
  function Approximate(exact: Price): (r: Price)
    ensures Fits(r)
    ensures Fits(exact) ==> r == exact
  {
    var shrunk := Shrink(exact).0;
    var whole := Rounded(exact);
    if Fits(exact) || exact.base == 1 || exact.quote == 1 then shrunk
    else if whole.base == MAX_SHARE_SUPPLY || whole.quote == MAX_SHARE_SUPPLY then whole
    else if Nearer(whole, shrunk, exact) then whole
    else shrunk
  }

  /** Inside the range, neither of the two candidates is nearer to the exact value than the one taken. */
  lemma ApproximateIsNearest(exact: Price)
    requires exact.base > 1 && exact.quote > 1
    requires Rounded(exact).base < MAX_SHARE_SUPPLY && Rounded(exact).quote < MAX_SHARE_SUPPLY
    ensures !Nearer(Rounded(exact), Approximate(exact), exact) && !Nearer(Shrink(exact).0, Approximate(exact), exact)
  {
    hide Rounded, Nearer;
    NearerIsStrict(Rounded(exact), Shrink(exact).0, exact);
  }

  /** Of two fractions at most one is strictly nearer, and none is nearer than the target itself. */
  lemma NearerIsStrict(f: Price, g: Price, target: Price)
    ensures !Nearer(f, f, target) && !Nearer(g, g, target) && (Nearer(f, g, target) ==> !Nearer(g, f, target))
    ensures !Nearer(f, target, target)
  {
  }

  /** p * (num / den), as the chain computes it. */
  function Scale(p: Price, num: nat, den: nat): (np: Price)
    requires num > 0 && den > 0
  {
    if num == den then p
    else
      var exact := Reduce(p.base * num, p.quote * den);
      var np := Approximate(exact);
      if !Fits(exact) && (if num > den then Less(np, p) else Less(p, np)) then p else np
  }

  /** The product fits in share amounts, so it is not rounded. */
  predicate ScalesExactly(p: Price, num: nat, den: nat)
    requires num > 0 && den > 0
  {
    Fits(Reduce(p.base * num, p.quote * den))
  }

  /** p / (num / den). */
  function Unscale(p: Price, num: nat, den: nat): Price
    requires num > 0 && den > 0
  {
    Scale(p, den, num)
  }

  /** A ratio above one never lowers a price and a ratio below one never raises it. */
  lemma ScaleKeepsSide(p: Price, num: nat, den: nat)
    requires num > 0 && den > 0
    ensures num >= den ==> AtMost(p, Scale(p, num, den))
    ensures num <= den ==> AtMost(Scale(p, num, den), p)
  {
    if num != den {
      var exact := Reduce(p.base * num, p.quote * den);
      if Fits(exact) {
        ProductKeepsSide(p, num, den, exact);
      }
    }
  }

  lemma ProductKeepsSide(p: Price, num: nat, den: nat, f: Price)
    requires num > 0 && den > 0
    requires f.base * (p.quote * den) == p.base * num * f.quote
    ensures num >= den ==> AtMost(p, f)
    ensures num <= den ==> AtMost(f, p)
  {
    var x, y := p.base * f.quote, f.base * p.quote;
    assert y * den == x * num by {
      Comm3(f.base, p.quote, den);
      Comm3(p.base, num, f.quote);
    }
    if num >= den && x > y {
      MulStrict(y, x, den);
      MulMono(den, num, x);
      assert false;
    }
    if num <= den && y > x {
      MulStrict(x, y, den);
      MulMono(num, den, x);
      assert false;
    }
  }

  /** Within range the product is exact, and the result stays in range when the price did. */
  lemma ScaleIsExactInRange(p: Price, num: nat, den: nat)
    requires num > 0 && den > 0
    ensures ScalesExactly(p, num, den)
            ==> Scale(p, num, den).base * (p.quote * den) == p.base * num * Scale(p, num, den).quote
    ensures Fits(p) ==> Fits(Scale(p, num, den))
  {
    if num == den { Comm3(p.base, p.quote, den); Comm3(p.base, num, p.quote); }
  }

  /** Scaling up and, without rounding, scaling a price that is no lower down again leads back to at least the original. */
  lemma ScaleBack(p: Price, up: Price, r: Price, down: Price, num: nat, den: nat)
    requires num > 0 && den > 0
    requires up.base * (p.quote * den) == p.base * num * up.quote && AtMost(up, r)
    requires down.base * (r.quote * num) == r.base * den * down.quote
    ensures AtMost(p, down)
  {
    var left, right, k := p.base * down.quote, down.base * p.quote, num * up.quote * r.quote;
    var m := p.quote * den * down.quote;
    assert left * k == up.base * r.quote * m by {
      assert left * k == p.base * num * up.quote * (down.quote * r.quote) by { ScaleBackLeft(p.base, down.quote, num, up.quote, r.quote); }
      ScaleBackMiddle(up.base, p.quote, den, down.quote, r.quote);
    }
    assert right * k == r.base * up.quote * m by {
      ScaleBackRight(down.base, p.quote, num, up.quote, r.quote);
      assert right * k == r.base * den * down.quote * (p.quote * up.quote);
      ScaleBackEnd(r.base, den, down.quote, p.quote, up.quote);
    }
    MulMono(up.base * r.quote, r.base * up.quote, m);
    MulPositive(num, up.quote);
    MulPositive(num * up.quote, r.quote);
    MulCancel(left, right, k);
  }

  /** It leads back to at least the original exactly if the price is no lower than the product. */
  lemma ScaleBackExactly(p: Price, r: Price, num: nat, den: nat)
    requires num > 0 && den > 0 && ScalesExactly(r, den, num)
    ensures AtMost(p, Scale(r, den, num)) <==> AtMost(Reduce(p.base * num, p.quote * den), r)
  {
    var up, down := Reduce(p.base * num, p.quote * den), Scale(r, den, num);
    ScaleIsExactInRange(r, den, num);
    if AtMost(up, r) { ScaleBack(p, up, r, down, num, den); }
    if AtMost(p, down) {
      assert p.base * (up.quote * num) == up.base * den * p.quote by { TurnedAround(up, p, num, den); }
      assert r.base * (down.quote * den) == down.base * num * r.quote by { TurnedAround(down, r, den, num); }
      ScaleBack(up, p, down, r, den, num);
    }
  }

  lemma TurnedAround(a: Price, b: Price, num: nat, den: nat)
    requires a.base * (b.quote * den) == b.base * num * a.quote
    ensures b.base * (a.quote * num) == a.base * den * b.quote
  {
    Comm3(b.base, a.quote, num);
    Comm3(a.base, b.quote, den);
  }

  lemma MulPositive(a: nat, b: nat)
    requires a > 0 && b > 0
    ensures a * b > 0
  {
  }

  lemma ScaleBackLeft(a: nat, b: nat, c: nat, d: nat, e: nat)
    ensures a * b * (c * d * e) == a * c * d * (b * e)
  {
    Comm3(a, b, c);
    Comm3(a * c, b, d);
    assert a * b * (c * d * e) == a * b * c * d * e;
    assert a * c * d * (b * e) == a * c * d * b * e;
  }

  lemma ScaleBackMiddle(a: nat, b: nat, c: nat, d: nat, e: nat)
    ensures a * (b * c) * (d * e) == a * e * (b * c * d)
  {
    var x := b * c;
    assert a * x * (d * e) == a * x * d * e;
    Comm3(a, x * d, e);
  }

  lemma ScaleBackRight(a: nat, b: nat, c: nat, d: nat, e: nat)
    ensures a * b * (c * d * e) == a * (e * c) * (b * d)
  {
    assert a * b * (c * d * e) == a * b * (c * e) * d by { Comm3(c, d, e); }
    Comm3(a, b, c * e);
  }

  lemma ScaleBackEnd(a: nat, b: nat, c: nat, d: nat, e: nat)
    ensures a * b * c * (d * e) == a * e * (d * b * c)
  {
    var x := b * c;
    assert a * b * c * (d * e) == a * x * d * e;
    Comm3(a, x, d);
    Comm3(a * d, x, e);
    Comm3(a, d, e);
    assert a * e * d * x == a * e * (d * x);
    assert d * x == d * b * c;
  }

  /** The multiplication as a loop over the fraction. */
  method Multiply(p: Price, num: nat, den: nat) returns (np: Price)
    requires num > 0 && den > 0
    ensures np == Scale(p, num, den)
  {
    if num == den { return p; }
    var cp: Price := Reduce(p.base * num, p.quote * den);
    var ocp := cp;
    var shrunk, usingMax := false, false;
    while !usingMax && (cp.base > MAX_SHARE_SUPPLY || cp.quote > MAX_SHARE_SUPPLY)
      invariant usingMax ==> Fits(cp) && Shrink(ocp).0 == cp
      invariant !usingMax ==> Shrink(ocp) == Shrink(cp)
      invariant !shrunk && !usingMax ==> cp == ocp
      invariant shrunk ==> !Fits(ocp) && ocp.base != 1 && ocp.quote != 1
      invariant usingMax && !shrunk ==> !Fits(ocp) && (ocp.base == 1 || ocp.quote == 1)
      decreases !usingMax, cp.base + cp.quote
    {
      if cp.base == 1 {
        cp, usingMax := Pair(1, MAX_SHARE_SUPPLY), true;
      } else if cp.quote == 1 {
        cp, usingMax := Pair(MAX_SHARE_SUPPLY, 1), true;
      } else {
        cp, shrunk := Reduce(cp.base / 2, cp.quote / 2), true;
      }
    }
    if shrunk {
      var whole := Rounded(ocp);
      if whole.base == MAX_SHARE_SUPPLY || whole.quote == MAX_SHARE_SUPPLY || Nearer(whole, cp, ocp) {
        cp := whole;
      }
    }
    np := cp;
    if shrunk || usingMax {
      var flipped := if num > den then Less(np, p) else Less(p, np);
      if flipped { np := p; }
    }
  }
}
