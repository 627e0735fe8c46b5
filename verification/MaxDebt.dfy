/**
 * How much of a margin-called position's debt has to be covered so that its
 * collateral ratio rises above the ratio its owner asked for.
 */
module MaxDebt {
  import opened Wrappers
  import opened Prices
  import opened PriceScale

  const RATIO_DENOM: nat := 1000

  /** A margin position; `targetRatio` is the owner's optional target in thousandths. */
  datatype Position = Position(collateral: nat, debt: nat, targetRatio: Option<nat>)

  /** The collateral/debt ratio of an open position. */
  predicate Open(c: Position) {
    c.collateral > 0 && c.debt > 0
  }

  function Collateralization(c: Position): Price
    requires Open(c)
  {
    Pair(c.collateral, c.debt)
  }

  /**
   * One query: the position, the rate it would pay at and the price feed, both in
   * collateral per debt, the feed's maintenance ratio and the maintenance
   * collateralization derived from it.
   */
  datatype Query = Query(c: Position, rate: Price, feed: Price, mcr: nat, maintenance: Price)
  {
    predicate Valid() {
      Open(c) && mcr > 0
    }

    /** In margin call territory. */
    predicate Callable()
      requires Valid()
    {
      AtMost(Collateralization(c), maintenance)
    }

    /** The target ratio, never below the maintenance ratio. */
    function Ratio(): (r: nat)
      requires Valid() && c.targetRatio.Some?
      ensures r >= mcr
    {
      if c.targetRatio.value > mcr then c.targetRatio.value else mcr
    }

    function Target(): Price
      requires Valid() && c.targetRatio.Some?
    {
      Scale(feed, Ratio(), RATIO_DENOM)
    }

    /** Shortfall against the exact target, at the pay rate; negative when already above it. */
    function Numerator(): int
      requires Valid() && c.targetRatio.Some?
    {
      feed.base * rate.quote * c.debt * Ratio() - feed.quote * rate.quote * c.collateral * RATIO_DENOM
    }

    /** Gain against the exact target per unit covered; not positive when covering cannot help. */
    function Denominator(): int
      requires Valid() && c.targetRatio.Some?
    {
      feed.base * rate.quote * Ratio() - feed.quote * rate.base * RATIO_DENOM
    }

    /** Covering `cover` for `pay` leaves the position open and above target. */
    predicate Reaches(cover: nat, pay: nat)
      requires Valid() && c.targetRatio.Some?
    {
      && pay < c.collateral && cover < c.debt
      && Less(Target(), Pair(c.collateral - pay, c.debt - cover))
    }

    /** Closed-form estimate, ignoring rounding, trimmed to an amount the pay rate hits exactly. */
    function LowCover(): nat
      requires Valid() && c.targetRatio.Some? && Numerator() >= 0 && Denominator() > 0
    {
      ToQuote(ToBase(DivDown(Numerator(), Denominator()), rate), rate)
    }

    function LowPay(): nat
      requires Valid() && c.targetRatio.Some? && Numerator() >= 0 && Denominator() > 0
    {
      ToBaseUp(LowCover(), rate)
    }

    /** Closed-form estimate with the largest possible rounding added: (debt, collateral). */
    function High(): (nat, nat)
      requires Valid() && c.targetRatio.Some? && Numerator() >= 0 && Denominator() > 0
    {
      var amount := DivDown(Numerator() + feed.base * rate.quote * Ratio(), Denominator()) + 1;
      var pay := ToBaseUp(amount, rate);
      if amount >= c.debt || pay >= c.collateral || ToQuote(pay, rate) >= c.debt
      then (c.debt, c.collateral)
      else (ToQuote(pay, rate), pay)
    }
  }

  /** Rounding the payment up and the cover down again settles in one step. */
  lemma StableUp(amount: nat, p: Price)
    ensures var pay := ToBaseUp(amount, p);
            amount <= ToQuote(pay, p) && ToBaseUp(ToQuote(pay, p), p) == pay
  {
    var pay := ToBaseUp(amount, p);
    var cover := ToQuote(pay, p);
    RoundUpIsLeast(pay, amount, p);
    RoundUpIsLeast(pay, cover, p);
    CostMono(amount, cover, p);
  }

  lemma StableDown(pay: nat, p: Price)
    ensures ToBaseUp(ToQuote(pay, p), p) <= pay
  {
    RoundUpIsLeast(pay, ToQuote(pay, p), p);
  }

  lemma CostMono(x: nat, y: nat, p: Price)
    requires x <= y
    ensures ToBaseUp(x, p) <= ToBaseUp(y, p)
  {
    MulMono(x, y, p.base);
    DivUpAtMost(x * p.base, p.quote, ToBaseUp(y, p));
  }

  /** Covering at a rate no better than the position's own ratio cannot raise that ratio. */
  lemma PoorRateCoversAll(q: Query)
    requires q.Valid() && q.c.targetRatio.Some? && q.Numerator() >= 0 && q.Denominator() > 0
    requires AtMost(Collateralization(q.c), q.rate)
    ensures DivDown(q.Numerator(), q.Denominator()) >= q.c.debt
  {
    var c, m, f, t := q.c, q.rate, q.feed, q.Ratio();
    var a := f.base * m.quote * t;
    var k := f.quote * RATIO_DENOM;
    assert c.collateral * m.quote <= m.base * c.debt;
    MulMono(c.collateral * m.quote, m.base * c.debt, k);
    assert q.Denominator() == a - k * m.base by {
      Comm3(f.quote, m.base, RATIO_DENOM);
      assert f.quote * RATIO_DENOM * m.base == k * m.base;
    }
    assert q.Numerator() == a * c.debt - k * (c.collateral * m.quote) by {
      assert f.base * m.quote * c.debt * t == a * c.debt by {
        Comm3(f.base * m.quote, c.debt, t);
      }
      assert f.quote * m.quote * c.collateral * RATIO_DENOM == k * (c.collateral * m.quote) by {
        Comm3(f.quote, m.quote, c.collateral);
        Comm3(f.quote, c.collateral * m.quote, RATIO_DENOM);
        assert f.quote * m.quote * c.collateral == f.quote * (c.collateral * m.quote);
      }
    }
    assert k * (m.base * c.debt) == k * m.base * c.debt;
    assert q.Denominator() * c.debt == a * c.debt - k * m.base * c.debt;
    DivDownAtLeast(q.Numerator(), q.Denominator(), c.debt);
  }

  /**
   * Bisection between a cover that is too small and one at the high end.  Returns a
   * good cover not above the high end, or gives up only when the high end is not good.
   */
  method SearchBetween(q: Query, lowCover: nat, lowPay: nat, highCover: nat, highPay: nat)
    returns (found: bool, r: nat)
    requires q.Valid() && q.c.targetRatio.Some?
    requires lowCover < highCover <= q.c.debt && lowPay < highPay <= q.c.collateral
    requires highCover == q.c.debt <==> highPay == q.c.collateral
    requires highPay < q.c.collateral ==> highPay == ToBaseUp(highCover, q.rate)
    ensures found ==> lowCover < r <= highCover
    ensures found && r < q.c.debt ==> q.Reaches(r, ToBaseUp(r, q.rate))
    ensures !found ==> highCover < q.c.debt && !q.Reaches(highCover, highPay)
  {
    var m := q.rate;
    var minPay: nat, minCover: nat, maxPay: nat, maxCover: nat := lowPay, lowCover, highPay, highCover;
    var maxIsOk := false;
    while true
      invariant lowCover <= minCover < maxCover <= highCover && minPay < maxPay <= highPay
      invariant maxCover == q.c.debt <==> maxPay == q.c.collateral
      invariant maxPay < q.c.collateral ==> maxPay == ToBaseUp(maxCover, m)
      invariant maxIsOk ==> q.Reaches(maxCover, maxPay)
      invariant !maxIsOk ==> maxCover == highCover && maxPay == highPay
      decreases maxPay - minPay
    {
      var toPay, toCover := Middle(m, minPay, minCover, maxPay, maxCover);
      if toPay == maxPay && (maxIsOk || toPay == q.c.collateral) { return true, toCover; }
      assert toPay < q.c.collateral && toCover < q.c.debt;
      if q.Reaches(toCover, toPay) {
        if toPay == maxPay { return true, toCover; }
        maxPay, maxCover, maxIsOk := toPay, toCover, true;
      } else {
        if toPay == maxPay { return false, 0; }
        minPay, minCover := toPay, toCover;
      }
    }
  }

  /** The next candidate of the bisection: the maximum itself, or strictly inside with the payment settled. */
  method Middle(m: Price, minPay: nat, minCover: nat, maxPay: nat, maxCover: nat)
    returns (toPay: nat, toCover: nat)
    requires minPay < maxPay && minCover < maxCover
    ensures (toPay == maxPay && toCover == maxCover)
         || (minPay < toPay < maxPay && minCover < toCover < maxCover && toPay == ToBaseUp(toCover, m))
  {
    if m.base < m.quote {
      toPay := (minPay + maxPay + 1) / 2;
      if toPay == maxPay {
        toCover := maxCover;
      } else {
        toCover := ToQuote(toPay, m);
        if toCover >= maxCover {
          toPay, toCover := maxPay, maxCover;
        } else {
          StableDown(toPay, m);
          toPay := ToBaseUp(toCover, m);
          assert toPay < maxPay;
        }
      }
    } else {
      toCover := (minCover + maxCover) / 2;
      if toCover == maxCover {
        toPay := maxPay;
      } else {
        StableUp(toCover, m);
        toPay := ToBaseUp(toCover, m);
        if toPay >= maxPay {
          toPay, toCover := maxPay, maxCover;
        } else {
          toCover := ToQuote(toPay, m);
          if toCover >= maxCover { toPay, toCover := maxPay, maxCover; }
        }
      }
    }
    if toPay <= minPay || toCover <= minCover || toPay > maxPay || toCover > maxCover {
      toPay, toCover := maxPay, maxCover;
    }
  }

  /** Forward search in Fibonacci steps; ends with a good cover or with the whole debt. */
  method SearchForward(q: Query, startCover: nat, startPay: nat) returns (r: nat)
    requires q.Valid() && q.c.targetRatio.Some?
    requires startCover < q.c.debt && startPay < q.c.collateral && startPay == ToBaseUp(startCover, q.rate)
    ensures startCover <= r <= q.c.debt
    ensures r < q.c.debt ==> q.Reaches(r, ToBaseUp(r, q.rate))
  {
    var m, toPay, toCover := q.rate, startPay, startCover;
    var d1, d2, d3 := 0, 1, 1;
    while true
      invariant startCover <= toCover < q.c.debt && toPay < q.c.collateral
      invariant toPay == ToBaseUp(toCover, m)
      invariant d1 <= d2 && d2 >= 1 && d3 == d1 + d2
      decreases 2 * (q.c.collateral + q.c.debt) - d3
    {
      RoundUpIsLeast(toPay, toCover, m);
      if m.base > m.quote {
        ConvertMono(toPay, toPay + d2, m);
        toPay := toPay + d2;
        if toPay >= q.c.collateral { return q.c.debt; }
        toCover := ToQuote(toPay, m);
        if toCover >= q.c.debt { return q.c.debt; }
        toPay := ToBaseUp(toCover, m);
        if toPay >= q.c.collateral { return q.c.debt; }
      } else {
        toCover := toCover + d2;
        if toCover >= q.c.debt { return q.c.debt; }
        StableUp(toCover, m);
        toPay := ToBaseUp(toCover, m);
        if toPay >= q.c.collateral { return q.c.debt; }
        toCover := ToQuote(toPay, m);
        if toCover >= q.c.debt { return q.c.debt; }
      }
      assert toPay < q.c.collateral && toCover < q.c.debt;
      if q.Reaches(toCover, toPay) { return toCover; }
      d1 := d2;
      d2 := d3;
      d3 := d1 + d2;
    }
  }

  /** The part of the answer that depends on the two closed-form estimates. */
  ghost predicate AgreesWithEstimates(q: Query, r: nat)
    requires q.Valid() && q.c.targetRatio.Some? && q.Numerator() >= 0 && q.Denominator() > 0
  {
    var (high, highPay) := q.High();
    if DivDown(q.Numerator(), q.Denominator()) >= q.c.debt || q.LowPay() >= q.c.collateral then r == q.c.debt
    else if q.Reaches(q.LowCover(), q.LowPay()) then r == q.LowCover()
    else if highPay <= q.LowPay() || high <= q.LowCover() then r == q.c.debt
    else q.LowCover() < r && (q.Reaches(high, highPay) ==> r <= high)
  }

  /**
   * The amount of debt to cover.  Zero is returned outside margin call territory
   * and, inside it, only when the position is above the exact target or above the
   * target as the chain rounds it.  A partial amount always lifts the position above
   * target at the rounded-up price.  A position whose ratio is no better than the
   * rate it pays is covered in full.
   */
  method MaxDebtToCover(q: Query) returns (r: nat)
    requires q.Valid()
    ensures r <= q.c.debt
    ensures !q.Callable() ==> r == 0
    ensures q.Callable() && q.c.targetRatio.None? ==> r == q.c.debt
    ensures r == 0 <==> !q.Callable() || (q.c.targetRatio.Some? && CoversNothing(q))
    ensures 0 < r < q.c.debt ==> q.c.targetRatio.Some? && q.Reaches(r, ToBaseUp(r, q.rate))
    ensures q.Callable() && q.c.targetRatio.Some? && q.Numerator() >= 0 && q.Denominator() <= 0 ==> r == q.c.debt
    ensures q.Callable() && q.c.targetRatio.Some? && q.Numerator() >= 0 && q.Denominator() > 0
            ==> AgreesWithEstimates(q, r)
    ensures q.Callable() && AtMost(Collateralization(q.c), q.rate)
            ==> r == q.c.debt || (q.c.targetRatio.Some? && q.Numerator() < 0)
  {
    if !q.Callable() { return 0; }
    if q.c.targetRatio.None? { return q.c.debt; }
    if q.Numerator() < 0 { return 0; }
    if q.Denominator() <= 0 { return q.c.debt; }
    if AtMost(Collateralization(q.c), q.rate) { PoorRateCoversAll(q); }
    r := CoverWithTarget(q);
  }

  /**
   * Inside margin call territory nothing is covered exactly when the position is
   * above the exact target, or is above the rounded target already while the
   * estimate rounds to nothing.
   */
  ghost predicate CoversNothing(q: Query)
    requires q.Valid() && q.c.targetRatio.Some?
  {
    || q.Numerator() < 0
    || (&& q.Denominator() > 0
        && DivDown(q.Numerator(), q.Denominator()) < q.c.debt
        && q.LowCover() == 0
        && Less(q.Target(), Collateralization(q.c)))
  }

  method CoverWithTarget(q: Query) returns (r: nat)
    requires q.Valid() && q.c.targetRatio.Some? && q.Numerator() >= 0 && q.Denominator() > 0
    ensures r <= q.c.debt
    ensures r == 0 <==> CoversNothing(q)
    ensures 0 < r < q.c.debt ==> q.Reaches(r, ToBaseUp(r, q.rate))
    ensures AgreesWithEstimates(q, r)
  {
    var collateral, debt, m := q.c.collateral, q.c.debt, q.rate;
    var numerator, denominator := q.Numerator(), q.Denominator();
    var toCoverAmount := DivDown(numerator, denominator);
    if toCoverAmount >= debt { return debt; }
    var toPay := ToBase(toCoverAmount, m);
    var toCover := ToQuote(toPay, m);
    StableUnder(toCoverAmount, m);
    NothingCostsNothing(m);
    toPay := ToBaseUp(toCover, m);
    if toCover >= debt || toPay >= collateral { return debt; }
    if q.Reaches(toCover, toPay) { return toCover; }

    var highAmount := DivDown(numerator + q.feed.base * m.quote * q.Ratio(), denominator) + 1;
    if highAmount >= debt { highAmount := debt; }
    var maxPay := if highAmount == debt then collateral else ToBaseUp(highAmount, m);
    if maxPay > collateral { maxPay := collateral; }
    var maxCover := if maxPay == collateral then debt else ToQuote(maxPay, m);
    if maxCover >= debt { maxPay, maxCover := collateral, debt; }
    assert (maxCover, maxPay) == q.High();
    if maxPay <= toPay || maxCover <= toCover { return debt; }
    StableUp(highAmount, m);
    var found;
    found, r := SearchBetween(q, toCover, toPay, maxCover, maxPay);
    if !found {
      r := SearchForward(q, maxCover, maxPay);
    }
  }

  lemma StableUnder(amount: nat, p: Price)
    ensures ToQuote(ToBase(amount, p), p) <= amount
  {
    var pay := ToBase(amount, p);
    var cover := ToQuote(pay, p);
    assert cover * p.base <= pay * p.quote <= amount * p.base;
    MulCancel(cover, amount, p.base);
  }

  lemma NothingCostsNothing(p: Price)
    ensures ToBaseUp(0, p) == 0
  {
    DivUpAtMost(0, p.quote, 0);
  }

  /** The maintenance collateralization and the target are exact multiples of the feed. */
  predicate FeedIsExact(q: Query)
    requires q.Valid()
  {
    && q.maintenance == Scale(q.feed, q.mcr, RATIO_DENOM)
    && Fits(Reduce(q.feed.base * q.mcr, q.feed.quote * RATIO_DENOM))
    && (q.c.targetRatio.Some? ==> Fits(Reduce(q.feed.base * q.Ratio(), q.feed.quote * RATIO_DENOM)))
  }

  /** As long as no rounding happened in the feed, a called position always has something to cover. */
  lemma ExactFeedCoversSomething(q: Query)
    requires q.Valid() && q.Callable() && q.c.targetRatio.Some? && FeedIsExact(q)
    ensures !CoversNothing(q)
  {
    var c, f, t, maint, target := q.c, q.feed, q.Ratio(), q.maintenance, q.Target();
    ScaleIsExactInRange(f, q.mcr, RATIO_DENOM);
    ScaleIsExactInRange(f, t, RATIO_DENOM);
    UnderExactMultiple(c.collateral, c.debt, maint, f, q.mcr, t);
    assert q.Numerator() >= 0 by {
      var x, y := c.collateral * (f.quote * RATIO_DENOM), c.debt * (f.base * t);
      MulMono(x, y, q.rate.quote);
      assert f.base * q.rate.quote * c.debt * t == y * q.rate.quote by { Comm4(f.base, q.rate.quote, c.debt, t); }
      assert f.quote * q.rate.quote * c.collateral * RATIO_DENOM == x * q.rate.quote by {
        Comm4(f.quote, q.rate.quote, c.collateral, RATIO_DENOM);
      }
    }
    assert !Less(target, Collateralization(c)) by {
      BackToMultiple(c.collateral, c.debt, target, f, t);
    }
  }

  lemma Comm4(a: nat, b: nat, c: nat, d: nat)
    ensures a * b * c * d == c * (a * d) * b
  {
    Comm3(a, b, c);
    Comm3(a * c, b, d);
    Comm3(a, c, d);
    Comm3(c, a, d);
  }

  /** coll/debt <= maint == feed*mcr/1000 and mcr <= t give coll/debt <= feed*t/1000. */
  lemma UnderExactMultiple(coll: nat, debt: nat, maint: Price, f: Price, mcr: nat, t: nat)
    requires mcr <= t && coll * maint.quote <= maint.base * debt
    requires maint.base * (f.quote * RATIO_DENOM) == f.base * mcr * maint.quote
    ensures coll * (f.quote * RATIO_DENOM) <= debt * (f.base * t)
  {
    var k := f.quote * RATIO_DENOM;
    MulMono(coll * maint.quote, maint.base * debt, k);
    assert coll * k * maint.quote == coll * maint.quote * k by { Comm3(coll, k, maint.quote); }
    assert maint.base * debt * k == debt * (f.base * mcr) * maint.quote by {
      Comm3(maint.base, debt, k);
      Comm3(debt, f.base * mcr, maint.quote);
      assert maint.base * k * debt == f.base * mcr * maint.quote * debt;
      Comm3(f.base * mcr, maint.quote, debt);
    }
    MulCancel(coll * k, debt * (f.base * mcr), maint.quote);
    MulMono(mcr, t, f.base);
    MulMono(f.base * mcr, f.base * t, debt);
  }

  /** The converse step, from the exact multiple back to the price it equals. */
  lemma BackToMultiple(coll: nat, debt: nat, target: Price, f: Price, t: nat)
    requires coll * (f.quote * RATIO_DENOM) <= debt * (f.base * t)
    requires target.base * (f.quote * RATIO_DENOM) == f.base * t * target.quote
    ensures coll * target.quote <= target.base * debt
  {
    var k := f.quote * RATIO_DENOM;
    MulMono(coll * k, debt * (f.base * t), target.quote);
    Comm3(coll, k, target.quote);
    assert debt * (f.base * t) * target.quote == target.base * debt * k by {
      Comm3(debt, f.base * t, target.quote);
      Comm3(target.base, k, debt);
    }
    MulCancel(coll * target.quote, target.base * debt, k);
  }

  lemma RoundedFeed()
    ensures Scale(Pair(999_999_999_999_996, 499_999_999_999_999), 1500, RATIO_DENOM) == Pair(3, 1)
  {
    var n, d := 1_499_999_999_999_994_000, 499_999_999_999_999_000;
    assert Gcd(n, d) == Gcd(d, 499_999_999_999_996_000) == Gcd(499_999_999_999_996_000, 3000)
        == Gcd(3000, 1000) == Gcd(1000, 0) == 1000;
    var exact := Reduce(n, d);
    assert exact == Pair(1_499_999_999_999_994, 499_999_999_999_999);
    var n', d' := 749_999_999_999_997, 249_999_999_999_999;
    assert Gcd(n', d') == Gcd(d', 0) == d';
    assert Reduce(n', d') == Pair(3, 1);
    assert Shrink(exact) == Shrink(Pair(3, 1));
    assert DivDown(1_499_999_999_999_994, 499_999_999_999_999) == 2;
    assert Rounded(exact) == Pair(2, 1);
    assert Approximate(exact) == Pair(3, 1);
  }

  /**
   * With rounding it can fail.  Under this feed the maintenance collateralization
   * rounds up to 3/1; a position at exactly 3/1 is in margin call territory, yet
   * nothing of it is to be covered, whatever rate it would pay.
   */
  lemma RoundedFeedCoversNothing(rate: Price)
    ensures var feed := Pair(999_999_999_999_996, 499_999_999_999_999);
            var q := Query(Position(300, 100, Some(1500)), rate, feed, 1500, Scale(feed, 1500, RATIO_DENOM));
            q.Valid() && q.Callable() && CoversNothing(q)
  {
    RoundedFeed();
    var feed := Pair(999_999_999_999_996, 499_999_999_999_999);
    var q := Query(Position(300, 100, Some(1500)), rate, feed, 1500, Pair(3, 1));
    assert q.Ratio() == 1500;
    assert q.Numerator() == -(300_000 * rate.quote) by {
      assert feed.base * rate.quote * 100 * 1500 == 149_999_999_999_999_400_000 * rate.quote;
      assert feed.quote * rate.quote * 300 * RATIO_DENOM == 149_999_999_999_999_700_000 * rate.quote;
    }
  }
}
