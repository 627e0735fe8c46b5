/**
 * Exchange rates as pairs of positive amounts, and the two ways the chain
 * converts an amount at a rate: rounding down and rounding up.
 */
module Prices {
  /** Largest amount any asset may have. */
  const MAX_SHARE_SUPPLY: nat := 1_000_000_000_000_000

  datatype Pair = Pair(base: nat, quote: nat)

  /** A rate of `base` units of one asset for `quote` units of another. */
  type Price = p: Pair | p.base > 0 && p.quote > 0 witness Pair(1, 1)

  /** The same rate seen from the other asset. */
  function Inverse(p: Price): Price {
    Pair(p.quote, p.base)
  }

  /** Rates compare as fractions, by cross-multiplication. */
  predicate Less(p: Price, r: Price) {
    p.base * r.quote < r.base * p.quote
  }

  predicate AtMost(p: Price, r: Price) {
    p.base * r.quote <= r.base * p.quote
  }

  function DivDown(x: nat, d: nat): (q: nat)
    requires d > 0
    ensures q * d <= x < q * d + d
  {
    x / d
  }

  function DivUp(x: nat, d: nat): (q: nat)
    requires d > 0
    ensures x <= q * d < x + d
  {
    (x + d - 1) / d
  }

  /** Converts an amount of the base asset, rounding down. */
  function ToQuote(a: nat, p: Price): nat {
    DivDown(a * p.quote, p.base)
  }

  /** Converts an amount of the base asset, rounding up. */
  function ToQuoteUp(a: nat, p: Price): nat {
    DivUp(a * p.quote, p.base)
  }

  /** Converts an amount of the quote asset, rounding down. */
  function ToBase(a: nat, p: Price): nat {
    DivDown(a * p.base, p.quote)
  }

  /** Converts an amount of the quote asset, rounding up. */
  function ToBaseUp(a: nat, p: Price): nat {
    DivUp(a * p.base, p.quote)
  }

  lemma MulMono(x: nat, y: nat, d: nat)
    requires x <= y
    ensures x * d <= y * d && d * x <= d * y
  {
  }

  lemma MulCancel(x: nat, y: nat, d: nat)
    requires d > 0 && x * d <= y * d
    ensures x <= y
  {
    if y < x { MulStrict(y, x, d); }
  }

  lemma MulCancelStrict(x: nat, y: nat, d: nat)
    requires x * d < y * d
    ensures x < y
  {
    if y <= x { MulMono(y, x, d); }
  }

  /** Rounding down is the upper half of a Galois connection with multiplication. */
  lemma DivDownAtLeast(x: nat, d: nat, r: nat)
    requires d > 0
    ensures r <= DivDown(x, d) <==> r * d <= x
  {
    var q := DivDown(x, d);
    if r <= q { MulMono(r, q, d); }
    if r * d <= x { MulCancelStrict(r, q + 1, d); }
  }

  /** Rounding up is the lower half. */
  lemma DivUpAtMost(x: nat, d: nat, r: nat)
    requires d > 0
    ensures DivUp(x, d) <= r <==> x <= r * d
  {
    var q := DivUp(x, d);
    if q <= r { MulMono(q, r, d); }
    if x <= r * d { MulCancelStrict(q, r + 1, d); }
  }

  /**
   * Rounding up is the exact inverse of rounding down: the rounded-up cost of `r`
   * is the least amount that still converts, rounding down, to at least `r`.
   */
  lemma RoundUpIsLeast(x: nat, r: nat, p: Price)
    ensures r <= ToBase(x, p) <==> ToQuoteUp(r, p) <= x
    ensures r <= ToQuote(x, p) <==> ToBaseUp(r, p) <= x
  {
    DivDownAtLeast(x * p.base, p.quote, r);
    DivUpAtMost(r * p.quote, p.base, x);
    DivDownAtLeast(x * p.quote, p.base, r);
    DivUpAtMost(r * p.base, p.quote, x);
  }

  /** What is left of `x` after paying exactly for what it buys buys nothing more. */
  lemma ChangeBuysNothing(x: nat, p: Price)
    ensures ToQuoteUp(ToBase(x, p), p) <= x
    ensures ToBase(x - ToQuoteUp(ToBase(x, p), p), p) == 0
  {
    var r := ToBase(x, p);
    var cost := ToQuoteUp(r, p);
    RoundUpIsLeast(x, r, p);
    var rest := x - cost;
    assert x * p.base < r * p.quote + p.quote;
    assert r * p.quote <= cost * p.base;
    assert rest * p.base == x * p.base - cost * p.base;
    DivDownAtLeast(rest * p.base, p.quote, 1);
  }

  /** Amounts convert monotonically. */
  lemma ConvertMono(x: nat, y: nat, p: Price)
    requires x <= y
    ensures ToBase(x, p) <= ToBase(y, p)
    ensures ToQuote(x, p) <= ToQuote(y, p)
  {
    MulMono(x, y, p.base);
    MulMono(x, y, p.quote);
    DivDownAtLeast(y * p.base, p.quote, ToBase(x, p));
    DivDownAtLeast(y * p.quote, p.base, ToQuote(x, p));
  }

  /** An amount worth nothing at a rate is worth nothing at any worse rate. */
  lemma WorseRateConvertsLess(x: nat, p: Price, r: Price)
    requires AtMost(p, r)
    ensures ToBase(x, p) <= ToBase(x, r)
    ensures ToBaseUp(x, p) <= ToBaseUp(x, r)
  {
    CrossMul(x, p, r);
    var q := ToBase(x, p);
    if q * r.quote > x * r.base {
      MulStrict(x * r.base, q * r.quote, p.quote);
      assert q * p.quote <= x * p.base;
      MulMono(q * p.quote, x * p.base, r.quote);
      Comm3(q, p.quote, r.quote);
      assert false;
    }
    DivDownAtLeast(x * r.base, r.quote, q);
    var u := ToBaseUp(x, r);
    if x * p.base > u * p.quote {
      MulStrict(u * p.quote, x * p.base, r.quote);
      MulMono(x * r.base, u * r.quote, p.quote);
      Comm3(u, p.quote, r.quote);
      assert false;
    }
    DivUpAtMost(x * p.base, p.quote, u);
  }

  lemma MulStrict(x: nat, y: nat, d: nat)
    requires x < y && d > 0
    ensures x * d < y * d
  {
  }

  lemma Comm3(x: nat, y: nat, z: nat)
    ensures x * y * z == x * z * y == z * x * y == x * (y * z)
  {
  }

  lemma CrossMul(x: nat, p: Price, r: Price)
    requires AtMost(p, r)
    ensures x * p.base * r.quote <= x * r.base * p.quote
  {
    MulMono(p.base * r.quote, r.base * p.quote, x);
    Comm3(x, p.base, r.quote);
    Comm3(x, r.base, p.quote);
  }

  /** The order of rates is transitive. */
  lemma BelowAbove(p: Price, q: Price, r: Price)
    requires AtMost(p, q) && AtMost(q, r)
    ensures AtMost(p, r)
  {
    MulMono(p.base * q.quote, q.base * p.quote, r.quote);
    MulMono(q.base * r.quote, r.base * q.quote, p.quote);
    Comm3(p.base, q.quote, r.quote);
    Comm3(q.base, p.quote, r.quote);
    Comm3(r.base, q.quote, p.quote);
    MulCancel(p.base * r.quote, r.base * p.quote, q.quote);
  }
}
