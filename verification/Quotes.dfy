/** The amounts that change hands when two limit orders meet. */
module LimitQuotes {
  import opened Prices

  /**
   * Either the taker is too small to buy anything, or both sides exchange; then
   * `takerSmaller` tells which of the two is used up.
   */
  datatype LimitFill =
    | TakerTooSmall
    | Exchange(takerPays: nat, takerReceives: nat, takerSmaller: bool)

  /** Trade at the maker's price `p`, which gives `p.base` of the maker's asset for `p.quote` of the taker's. */
  function QuoteLimits(takerForSale: nat, makerForSale: nat, p: Price): LimitFill {
    if takerForSale <= ToQuote(makerForSale, p) then
      var receives := ToBase(takerForSale, p);
      if receives == 0 then TakerTooSmall
      else Exchange(ToQuoteUp(receives, p), receives, true)
    else
      var pays := ToQuote(makerForSale, p);
      Exchange(pays, ToBaseUp(pays, p), false)
  }

  /**
   * Against a maker that is not dust, an exchange moves positive amounts both ways,
   * within both orders; what is left of the smaller order buys nothing at the trade
   * price; and rounding, by less than one unit, favours the larger order.
   */
  lemma QuoteLimitsSound(takerForSale: nat, makerForSale: nat, p: Price)
    requires takerForSale > 0 && ToQuote(makerForSale, p) > 0
    ensures match QuoteLimits(takerForSale, makerForSale, p)
            case TakerTooSmall => ToBase(takerForSale, p) == 0
            case Exchange(pays, receives, takerSmaller) =>
              && 0 < pays <= takerForSale && 0 < receives <= makerForSale
              && (takerSmaller ==>
                    && ToBase(takerForSale - pays, p) == 0
                    && (pays - 1) * p.base < receives * p.quote <= pays * p.base)
              && (!takerSmaller ==>
                    && pays < takerForSale
                    && ToQuote(makerForSale - receives, p) == 0
                    && (receives - 1) * p.quote < pays * p.base <= receives * p.quote)
  {
    if takerForSale <= ToQuote(makerForSale, p) {
      if ToBase(takerForSale, p) > 0 { TakerSmallerSound(takerForSale, makerForSale, p); }
    } else {
      MakerSmallerSound(makerForSale, p);
    }
  }

  lemma TakerSmallerSound(takerForSale: nat, makerForSale: nat, p: Price)
    requires takerForSale <= ToQuote(makerForSale, p) && ToBase(takerForSale, p) > 0
    ensures var receives := ToBase(takerForSale, p);
            var pays := ToQuoteUp(receives, p);
            && 0 < pays <= takerForSale && receives <= makerForSale
            && ToBase(takerForSale - pays, p) == 0
            && (pays - 1) * p.base < receives * p.quote <= pays * p.base
  {
    var receives := ToBase(takerForSale, p);
    ChangeBuysNothing(takerForSale, p);
    CostIsTight(receives, p);
    ConvertMono(takerForSale, ToQuote(makerForSale, p), p);
    ThereAndBack(makerForSale, p);
  }

  lemma MakerSmallerSound(makerForSale: nat, p: Price)
    requires ToQuote(makerForSale, p) > 0
    ensures var pays := ToQuote(makerForSale, p);
            var receives := ToBaseUp(pays, p);
            && 0 < receives <= makerForSale
            && ToQuote(makerForSale - receives, p) == 0
            && (receives - 1) * p.quote < pays * p.base <= receives * p.quote
  {
    ChangeBuysNothing(makerForSale, Inverse(p));
    CostIsTight(ToQuote(makerForSale, p), Inverse(p));
  }

  /** A rounded-up cost is positive and less than one unit above the exact cost. */
  lemma CostIsTight(r: nat, p: Price)
    requires r > 0
    ensures var cost := ToQuoteUp(r, p);
            cost > 0 && (cost - 1) * p.base < r * p.quote <= cost * p.base
  {
    var cost := ToQuoteUp(r, p);
    assert r * p.quote > 0;
    assert (cost - 1) * p.base == cost * p.base - p.base;
  }

  lemma ThereAndBack(x: nat, p: Price)
    ensures ToBase(ToQuote(x, p), p) <= x
  {
    var back := ToBase(ToQuote(x, p), p);
    assert back * p.quote <= ToQuote(x, p) * p.base <= x * p.quote;
    MulCancel(back, x, p.quote);
  }
}

/**
 * The pool of individually settled debt and the limit order that sells its
 * collateral.  The order is only a view on the pool.
 */
module SettledDebt {
  import opened Prices

  datatype Pool = Pool(debt: nat, fund: nat)

  /** `price` gives `price.base` of collateral for `price.quote` of debt. */
  datatype DebtOrder = DebtOrder(forSale: nat, price: Price)

  /** The order offers exactly what buys back the whole debt at its price, and the fund holds that much. */
  predicate Backed(pool: Pool, o: DebtOrder) {
    && pool.debt > 0
    && o.forSale == ToBaseUp(pool.debt, o.price)
    && o.forSale <= pool.fund
  }

  /** Being backed is the cross-multiplied comparison of the fund's ratio with the order's price. */
  lemma BackedMeansRatio(pool: Pool, o: DebtOrder)
    requires pool.debt > 0 && o.forSale == ToBaseUp(pool.debt, o.price)
    ensures Backed(pool, o) <==> pool.debt * o.price.base <= pool.fund * o.price.quote
  {
    DivUpAtMost(pool.debt * o.price.base, o.price.quote, pool.fund);
  }

  /** Collateral taken from the fund when `bought` debt is retired for `paid` collateral. */
  function PoolPays(pool: Pool, o: DebtOrder, bought: nat, paid: nat): nat
    requires pool.debt > 0 && pool.fund > 0
  {
    if o.forSale == pool.fund then paid else ToBase(bought, Pair(pool.fund, pool.debt))
  }

  /**
   * A trade, at any rate no better for the buyer than the order's price, that leaves
   * debt in the pool: the pool always pays at least what the trader receives, never
   * all of its fund, and what is left still backs the order at its old price.
   */
  lemma PartialFillKeepsBacked(pool: Pool, o: DebtOrder, rate: Price, paid: nat, bought: nat)
    requires Backed(pool, o) && AtMost(rate, o.price)
    requires bought == ToQuoteUp(paid, rate) && bought < pool.debt
    ensures paid <= PoolPays(pool, o, bought, paid) < pool.fund
    ensures ToBaseUp(pool.debt - bought, o.price) <= pool.fund - PoolPays(pool, o, bought, paid)
  {
    var debt, fund, c, d := pool.debt, pool.fund, o.price.base, o.price.quote;
    BackedMeansRatio(pool, o);
    // paid / bought <= rate <= c / d <= fund / debt
    Chain(paid, bought, rate, o.price);
    Chain(paid, bought, o.price, Pair(fund, debt));
    DivDownAtLeast(bought * fund, debt, paid);
    var pays := PoolPays(pool, o, bought, paid);
    assert pays * debt <= bought * fund;
    MulStrict(bought, debt, fund);
    MulCancelStrict(pays, fund, debt);
    if o.forSale == fund {
      TakeBoth(c, d, debt, fund, bought, paid);
    } else {
      TakeBoth(fund, debt, debt, fund, bought, pays);
      ChainDown(c, d, debt, fund, debt - bought, fund - pays);
    }
    DivUpAtMost((debt - bought) * c, d, fund - pays);
  }

  /** Taking from both sides in a ratio not above c/d keeps debt*c <= fund*d. */
  lemma TakeBoth(c: nat, d: nat, debt: nat, fund: nat, bought: nat, paid: nat)
    requires bought <= debt && paid <= fund
    requires debt * c <= fund * d && paid * d <= bought * c
    ensures (debt - bought) * c <= (fund - paid) * d
  {
    assert (debt - bought) * c == debt * c - bought * c;
    assert (fund - paid) * d == fund * d - paid * d;
  }

  /** a/b <= p and p <= r give a/b <= r, all cross-multiplied. */
  lemma Chain(a: nat, b: nat, p: Price, r: Price)
    requires a * p.quote <= b * p.base && AtMost(p, r)
    ensures a * r.quote <= b * r.base
  {
    MulMono(a * p.quote, b * p.base, r.quote);
    CrossMul(b, p, r);
    Comm3(a, p.quote, r.quote);
    MulCancel(a * r.quote, b * r.base, p.quote);
  }

  /** debt*c <= fund*d and debt'/fund' <= debt/fund give debt'*c <= fund'*d. */
  lemma ChainDown(c: nat, d: nat, debt: nat, fund: nat, debt': nat, fund': nat)
    requires debt > 0 && fund > 0
    requires debt * c <= fund * d && debt' * fund <= fund' * debt
    ensures debt' * c <= fund' * d
  {
    MulMono(debt * c, fund * d, debt');
    MulMono(debt' * fund, fund' * debt, d);
    assert debt * (debt' * c) <= debt * (fund' * d) by {
      Comm3(debt, c, debt');
      Comm3(debt', fund, d);
      Comm3(fund', debt, d);
      assert debt * c * debt' == debt * (debt' * c);
      assert fund * d * debt' == debt' * fund * d;
      assert fund' * debt * d == debt * (fund' * d);
    }
    MulCancel(debt' * c, fund' * d, debt);
  }

  /** Buying back the whole debt at such a rate costs no more than the order offers. */
  lemma FullFillIsCovered(pool: Pool, o: DebtOrder, rate: Price)
    requires Backed(pool, o) && AtMost(rate, o.price)
    ensures ToBaseUp(pool.debt, rate) <= o.forSale <= pool.fund
  {
    WorseRateConvertsLess(pool.debt, rate, o.price);
  }

  /**
   * The order after a change of pool or feed: at `offered`, the margin call order
   * price, if the fund can honour that, and otherwise the whole fund for the whole
   * debt.  An amount above the largest share supply counts as not honourable.
   */
  function Reprice(pool: Pool, offered: Price): (o: DebtOrder)
    requires pool.debt > 0 && pool.fund > 0
    ensures Backed(pool, o)
    ensures o.price == offered || o == DebtOrder(pool.fund, Pair(pool.fund, pool.debt))
    ensures o.price == offered || MAX_SHARE_SUPPLY < ToBaseUp(pool.debt, offered)
            || pool.fund < ToBaseUp(pool.debt, offered)
  {
    var forSale := ToBaseUp(pool.debt, offered);
    if forSale <= MAX_SHARE_SUPPLY && forSale <= pool.fund then DebtOrder(forSale, offered)
    else
      WholeFund(pool);
      DebtOrder(pool.fund, Pair(pool.fund, pool.debt))
  }

  lemma WholeFund(pool: Pool)
    requires pool.debt > 0 && pool.fund > 0
    ensures ToBaseUp(pool.debt, Pair(pool.fund, pool.debt)) == pool.fund
  {
    var x := pool.debt * pool.fund;
    DivUpAtMost(x, pool.debt, pool.fund);
    DivUpAtMost(x, pool.debt, pool.fund - 1);
    assert x == pool.fund * pool.debt;
    assert (pool.fund - 1) * pool.debt == x - pool.debt;
  }
}
