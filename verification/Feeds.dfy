/** Price feeds of a collateralised asset and the prices derived from them. */
module Feeds {
  import opened Wrappers
  import opened Prices
  import opened PriceScale
  import opened ScaleError
  import opened MaxDebt

  /** What happens when a position's collateral no longer covers its debt. */
  datatype Response = GlobalSettlement | NoSettlement | SettleToFund | SettleToOrder

  /**
   * Prices in debt per collateral and ratios in thousandths.  `current` differs from
   * `median` only while the response to undercollateralization caps it.
   */
  datatype Feed = Feed(median: Price, current: Price, mcr: nat, icr: nat, mssr: nat, marginCallFee: Option<nat>)
  {
    predicate Valid() {
      RATIO_DENOM < mcr <= MAX_RATIO && RATIO_DENOM < mssr <= MAX_RATIO && icr <= MAX_RATIO
    }

    /** Squeeze ratio less the margin call fee, at least one. */
    function CallNumerator(): (n: nat)
      requires Valid()
      ensures RATIO_DENOM <= n <= mssr
    {
      var fee := if marginCallFee.Some? then marginCallFee.value else 0;
      if fee < mssr && mssr - fee >= RATIO_DENOM then mssr - fee else RATIO_DENOM
    }

    /** The price a margin call pays. */
    function SqueezePrice(): Price
      requires Valid()
    {
      Scale(current, RATIO_DENOM, mssr)
    }

    /** The price at which margin calls stand in the book; the difference is the margin call fee. */
    function CallOrderPrice(): Price
      requires Valid()
    {
      Unscale(current, CallNumerator(), RATIO_DENOM)
    }

    /** Positions with at most this much collateral per debt are called; always from the median. */
    function Maintenance(): Price
      requires Valid()
    {
      Scale(Inverse(median), mcr, RATIO_DENOM)
    }

    /** A position that is opened or weakened needs more collateral per debt than this. */
    function Initial(): Price
      requires Valid()
    {
      if icr > mcr then Scale(Inverse(median), icr, RATIO_DENOM) else Maintenance()
    }

    /** Both call prices are represented without rounding. */
    predicate CallPricesExact()
      requires Valid()
    {
      ScalesExactly(current, RATIO_DENOM, mssr) && ScalesExactly(current, RATIO_DENOM, CallNumerator())
    }

    /** However its prices are rounded, a margin call never pays less collateral than its counterparty receives. */
    lemma FeeIsNotNegative()
      requires Valid()
      ensures AtMost(SqueezePrice(), CallOrderPrice())
    {
      LargerDivisorScalesLower(current, RATIO_DENOM, CallNumerator(), mssr);
    }
  }

  /** The larger of two prices; the first when they are equal. */
  function MaxPrice(a: Price, b: Price): (r: Price)
    ensures AtMost(a, r) && AtMost(b, r)
  {
    if Less(a, b) then b else a
  }

  /**
   * The current price under the given response.  Without settlement it is capped where
   * the least collateralized position could still be called, and with a settlement fund
   * where the fund could still honour it.
   */
  function DerivedPrice(f: Feed, response: Response, least: Option<Position>, poolDebt: nat, poolFund: nat): (r: Price)
    requires f.Valid() && (least.Some? ==> Open(least.value)) && (poolDebt > 0 ==> poolFund > 0)
    ensures AtMost(f.median, r)
  {
    if response == NoSettlement && least.Some? then
      MaxPrice(f.median, Scale(Pair(least.value.debt, least.value.collateral), f.mssr, RATIO_DENOM))
    else if response == SettleToFund && poolDebt > 0 then
      MaxPrice(f.median, Scale(Pair(poolDebt, poolFund), f.CallNumerator(), RATIO_DENOM))
    else f.median
  }

  /**
   * What the caps are for, without rounding: the least collateralized position can pay the
   * squeeze price, or the settlement fund can pay the margin call order price.
   */
  lemma DerivedPriceIsHonoured(f: Feed, response: Response, least: Option<Position>, poolDebt: nat, poolFund: nat)
    requires f.Valid() && (least.Some? ==> Open(least.value)) && (poolDebt > 0 ==> poolFund > 0)
    requires f.(current := DerivedPrice(f, response, least, poolDebt, poolFund)).CallPricesExact()
    requires least.Some? ==> ScalesExactly(Pair(least.value.debt, least.value.collateral), f.mssr, RATIO_DENOM)
    requires poolDebt > 0 ==> ScalesExactly(Pair(poolDebt, poolFund), f.CallNumerator(), RATIO_DENOM)
    ensures var g := f.(current := DerivedPrice(f, response, least, poolDebt, poolFund));
            && (response == NoSettlement && least.Some? ==> AtMost(Pair(least.value.debt, least.value.collateral), g.SqueezePrice()))
            && (response == SettleToFund && poolDebt > 0 ==> AtMost(Pair(poolDebt, poolFund), g.CallOrderPrice()))
  {
    var g := f.(current := DerivedPrice(f, response, least, poolDebt, poolFund));
    if response == NoSettlement && least.Some? {
      var own := Pair(least.value.debt, least.value.collateral);
      ScaleIsExactInRange(own, f.mssr, RATIO_DENOM);
      ScaleIsExactInRange(g.current, RATIO_DENOM, f.mssr);
      ScaleBack(own, Scale(own, f.mssr, RATIO_DENOM), g.current, g.SqueezePrice(), f.mssr, RATIO_DENOM);
    }
    if response == SettleToFund && poolDebt > 0 {
      var own, n := Pair(poolDebt, poolFund), f.CallNumerator();
      ScaleIsExactInRange(own, n, RATIO_DENOM);
      ScaleIsExactInRange(g.current, RATIO_DENOM, n);
      ScaleBack(own, Scale(own, n, RATIO_DENOM), g.current, g.CallOrderPrice(), n, RATIO_DENOM);
    }
  }

  /** The feed with its current price derived anew; an equal price is not rewritten. */
  function Refreshed(f: Feed, response: Response, least: Option<Position>, poolDebt: nat, poolFund: nat): (r: Feed)
    requires f.Valid() && (least.Some? ==> Open(least.value)) && (poolDebt > 0 ==> poolFund > 0)
    ensures r.Valid() && SameParameters(f, r)
  {
    var derived := DerivedPrice(f, response, least, poolDebt, poolFund);
    if AtMost(derived, f.current) && AtMost(f.current, derived) then f else f.(current := derived)
  }

  /** Everything but the current price is the same. */
  predicate SameParameters(f: Feed, g: Feed) {
    g == f.(current := g.current)
  }
}
