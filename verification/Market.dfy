/**
 * Operations on one collateralised market: placing, matching and settling.  Every
 * operation keeps the books balanced in each asset, keeps the debt ledger and the
 * per-account record of core on the books exact, and keeps the settlement funds
 * able to pay.
 */
module Market {
  import opened Wrappers
  import opened Prices
  import opened MaxDebt
  import opened Sums
  import opened LimitQuotes
  import opened SettledDebt
  import opened SettleMatch
  import opened Feeds
  import opened Ledger

  /** The settled-debt order exists exactly when there is settled debt to sell, and is always backed. */
  ghost predicate PoolValid(db: Ledger)
    reads db`pool, db`debtOrder, db`response
  {
    && (db.pool.debt == 0 <==> db.pool.fund == 0)
    && (db.debtOrder.Some? ==> Backed(db.pool, db.debtOrder.value))
    && (db.debtOrder.Some? <==> db.response == SettleToOrder && db.pool.debt > 0)
    && (db.pool.debt > 0 ==> db.response == SettleToFund || db.response == SettleToOrder)
  }

  /**
   * Unless globally settled the supply is exactly the debt.  Once globally settled no
   * debt is left and the fund covers the supply at the settlement price.
   */
  ghost predicate Solvent(db: Ledger)
    reads db`swan, db`swanFund, db`supply, db`calls, db`pool
  {
    match db.swan
    case None => db.DebtGap() == 0 && db.swanFund == 0
    case Some(s) =>
      && db.calls == map[] && db.pool.debt == 0
      && Get(db.supply, db.p.mia) >= 0
      && (Get(db.supply, db.p.mia) == 0 ==> db.swanFund == 0)
      && Get(db.supply, db.p.mia) * s.quote <= db.swanFund * s.base
  }

  ghost predicate CallsOpen(db: Ledger)
    reads db`calls
  {
    forall x :: x in db.calls ==> Open(db.calls[x])
  }

  ghost predicate OrdersValid(db: Ledger)
    reads db`orders
  {
    forall id :: id in db.orders ==> db.orders[id].forSale > 0 && db.orders[id].sells != db.orders[id].wants
  }

  ghost predicate SettlesValid(db: Ledger)
    reads db`settles
  {
    forall id :: id in db.settles ==> db.settles[id].balance > 0
  }

  /** The record of core on the books is exact for every account. */
  ghost predicate CoreExact(db: Ledger)
    reads db`coreInOrders, db`orders, db`calls
  {
    forall x :: db.CoreGap(x) == 0
  }

  ghost predicate FeedValid(db: Ledger)
    reads db`feed
  {
    db.feed.Some? ==> db.feed.value.Valid()
  }

  /** Bids stand for some debt, and there are none unless the market is globally settled. */
  ghost predicate BidsValid(db: Ledger)
    reads db`bids, db`swan
  {
    (forall x :: x in db.bids ==> db.bids[x].debt > 0) && (db.swan.None? ==> db.bids == map[])
  }

  ghost predicate Valid(db: Ledger)
    reads db
  {
    && db.p.Valid() && CallsOpen(db) && OrdersValid(db) && SettlesValid(db) && BidsValid(db) && FeedValid(db)
    && CoreExact(db) && PoolValid(db) && Solvent(db)
  }

  // Placing orders

  /** Places a limit order; its fee is deferred, and paid in core or, through the fee pool, in another asset. */
  method PlaceLimitOrder(db: Ledger, id: nat, seller: Account, sells: Asset, wants: Asset, amount: nat, price: Price,
                         coreFee: nat, feeAsset: Asset, feePaid: nat)
    returns (ok: bool)
    requires Valid(db) && id !in db.orders && amount > 0 && sells != wants
    modifies db
    ensures Valid(db) && forall b :: db.Net(b) == old(db.Net(b))
    ensures ok ==> db.orders == old(db.orders)[id := LimitOrder(seller, sells, wants, amount, price, coreFee,
                                                               if feeAsset == CORE then 0 else feePaid, feeAsset)]
    ensures !ok ==> db.orders == old(db.orders) && db.balances == old(db.balances)
    ensures ok ==> Swapped(old(db.balances), db.balances, seller, sells, amount, feeAsset, 0 - if feeAsset == CORE then coreFee else feePaid)
  {
    hide Ledger.Net, Ledger.CoreGap, Ledger.TotalDebt, Ledger.DebtGap, Swapped, Solvent, PoolValid, SettlesValid, CallsOpen, FeedValid;
    ghost var before := db.balances;
    var fee := if feeAsset == CORE then coreFee else feePaid;
    if !db.CanPay(seller, sells, if sells == feeAsset then amount + fee else amount) { return false; }
    if !db.CanPay(seller, feeAsset, fee) { return false; }
    if feeAsset != CORE && Get(db.feePool, feeAsset) < coreFee { return false; }
    db.FundOrder(id, LimitOrder(seller, sells, wants, amount, price, 0, 0, CORE));
    ghost var between := db.balances;
    db.DeferFee(id, coreFee, feeAsset, if feeAsset == CORE then 0 else feePaid);
    PaidThenMoved(before, between, db.balances, seller, sells, amount, feeAsset, 0 - fee);
    return true;
  }

  /** Opens, changes or closes a margin position. */
  method UpdatePosition(db: Ledger, x: Account, deltaCollateral: int, deltaDebt: int, target: Option<nat>)
    returns (ok: bool)
    requires Valid(db)
    modifies db
    ensures Valid(db) && forall b :: db.Net(b) == old(db.Net(b))
    ensures !ok ==> db.calls == old(db.calls) && db.supply == old(db.supply) && db.balances == old(db.balances)
    ensures ok ==> Swapped(old(db.balances), db.balances, x, db.p.backing, deltaCollateral, db.p.mia, deltaDebt)
    ensures db.orders == old(db.orders) && db.feed == old(db.feed) && db.swan == old(db.swan) && db.response == old(db.response)
    ensures ok ==> db.swan.None? && (x !in db.calls <==> x in old(db.calls) && old(db.CallOwes(x)) + deltaDebt == 0)
    ensures ok ==> Get(db.supply, db.p.mia) == old(Get(db.supply, db.p.mia)) + deltaDebt
    ensures ok && x in db.calls ==> db.calls[x].debt == old(db.CallOwes(x)) + deltaDebt
                                    && db.calls[x].collateral == old(db.CallHolds(x)) + deltaCollateral
  {
    hide Ledger.Net, Ledger.CoreGap, Ledger.TotalDebt, Ledger.DebtGap, Swapped, PoolValid, SettlesValid, OrdersValid, FeedValid;
    if db.swan.Some? { return false; }
    var collateral, debt := db.CallHolds(x) + deltaCollateral, db.CallOwes(x) + deltaDebt;
    var closing := x in db.calls && debt == 0;
    if closing && collateral != 0 { return false; }
    if !closing && !(collateral > 0 && debt > 0) { return false; }
    if Get(db.balances, (x, db.p.mia)) + deltaDebt < 0 { return false; }
    if Get(db.balances, (x, db.p.backing)) - deltaCollateral < 0 { return false; }
    db.ChangePosition(x, deltaCollateral, deltaDebt, target);
    if closing {
      db.CloseCall(x);
    }
    return true;
  }

  method PlaceSettleOrder(db: Ledger, id: nat, owner: Account, amount: nat, date: nat) returns (ok: bool)
    requires Valid(db) && id !in db.settles && amount > 0
    modifies db
    ensures Valid(db) && forall b :: db.Net(b) == old(db.Net(b))
    ensures db.settles == if ok then old(db.settles)[id := SettleOrder(owner, amount, date)] else old(db.settles)
    ensures Swapped(old(db.balances), db.balances, owner, db.p.mia, if ok then amount else 0, db.p.mia, 0)
    ensures db.orders == old(db.orders) && db.feed == old(db.feed) && db.swan == old(db.swan)
  {
    hide Ledger.Net, Ledger.CoreGap, Ledger.TotalDebt, Ledger.DebtGap;
    if !db.CanPay(owner, db.p.mia, amount) { return false; }
    db.AdjustBalance(owner, db.p.mia, 0 - amount);
    db.SetSettle(id, SettleOrder(owner, amount, date));
    return true;
  }

  /** Replaces an account's bid; covering no debt just withdraws it. */
  method PlaceBid(db: Ledger, x: Account, collateral: nat, debt: nat) returns (ok: bool)
    requires Valid(db)
    modifies db
    ensures Valid(db) && forall b :: db.Net(b) == old(db.Net(b))
    ensures ok <==> old(db.swan.Some? && (x in db.bids || debt > 0)
                        && Get(db.balances, (x, db.p.backing)) + (if x in db.bids then db.bids[x].collateral else 0) >= collateral)
    ensures !ok ==> db.bids == old(db.bids) && db.balances == old(db.balances)
    ensures db.orders == old(db.orders) && db.supply == old(db.supply) && db.swan == old(db.swan) && db.swanFund == old(db.swanFund)
    ensures ok ==> db.bids == if debt == 0 then old(db.bids) - {x} else old(db.bids)[x := Bid(collateral, debt)]
    ensures ok ==> Swapped(old(db.balances), db.balances, x, db.p.backing, if debt == 0 then 0 else collateral,
                           db.p.backing, old(if x in db.bids then db.bids[x].collateral else 0))
  {
    hide Ledger.Net, Ledger.CoreGap, Ledger.TotalDebt, Ledger.DebtGap, Solvent, PoolValid, SettlesValid, OrdersValid, CallsOpen, FeedValid, CoreExact, Swapped;
    if db.swan.None? || (x !in db.bids && debt == 0) { return false; }
    var held := if x in db.bids then db.bids[x].collateral else 0;
    if Get(db.balances, (x, db.p.backing)) + held < collateral { return false; }
    ReplaceBid(db, x, collateral, debt);
    return true;
  }

  method ReplaceBid(db: Ledger, x: Account, collateral: nat, debt: nat)
    requires x in db.bids || debt > 0
    requires Get(db.balances, (x, db.p.backing)) + (if x in db.bids then db.bids[x].collateral else 0) >= collateral
    modifies db`balances, db`bids
    ensures forall b :: db.Net(b) == old(db.Net(b))
    ensures db.bids == if debt == 0 then old(db.bids) - {x} else old(db.bids)[x := Bid(collateral, debt)]
    ensures Swapped(old(db.balances), db.balances, x, db.p.backing, if debt == 0 then 0 else collateral,
                    db.p.backing, old(if x in db.bids then db.bids[x].collateral else 0))
  {
    hide Ledger.Net, Ledger.CoreGap, Ledger.TotalDebt, Ledger.DebtGap;
    if x in db.bids {
      db.CancelBid(x);
    }
    if debt > 0 {
      db.AdjustBalance(x, db.p.backing, 0 - collateral);
      db.SetBid(x, Bid(collateral, debt));
    }
  }

  method CancelSettle(db: Ledger, id: nat)
    requires Valid(db) && id in db.settles
    modifies db
    ensures Valid(db) && forall b :: db.Net(b) == old(db.Net(b))
    ensures db.settles == old(db.settles) - {id} && db.calls == old(db.calls) && db.orders == old(db.orders)
    ensures NoLess(old(db.balances), db.balances)
    ensures db.feed == old(db.feed) && db.swan == old(db.swan) && db.response == old(db.response)
  {
    hide Ledger.Net, Ledger.CoreGap, Ledger.TotalDebt, Ledger.DebtGap;
    db.CancelSettleOrder(id);
  }

  // Matching

  /** Same market, same side, same price. */
  predicate SameTerms(a: LimitOrder, b: LimitOrder) {
    a.sells == b.sells && a.wants == b.wants && a.price == b.price
  }

  /** A trade leaves dust of the smaller order; a taker that cannot trade is dust itself. */
  lemma QuoteUsesUpOne(t: LimitOrder, m: LimitOrder)
    requires t.forSale > 0 && m.ToReceive() > 0 && AtMost(Inverse(t.price), m.price)
    ensures match QuoteLimits(t.forSale, m.forSale, m.price)
            case TakerTooSmall => t.ToReceive() == 0
            case Exchange(pays, receives, takerSmaller) =>
              && pays <= t.forSale && receives <= m.forSale
              && if takerSmaller then ToQuote(t.forSale - pays, t.price) == 0 else ToQuote(m.forSale - receives, m.price) == 0
  {
    QuoteLimitsSound(t.forSale, m.forSale, m.price);
    match QuoteLimits(t.forSale, m.forSale, m.price)
    case TakerTooSmall =>
      WorseRateConvertsLess(t.forSale, Inverse(t.price), m.price);
    case Exchange(pays, receives, takerSmaller) =>
      if takerSmaller { WorseRateConvertsLess(t.forSale - pays, Inverse(t.price), m.price); }
  }

  /**
   * Trades two limit orders of the same market at the maker's price.  A taker that
   * would receive nothing is left for the caller to cancel; otherwise at least one of
   * the two leaves the book.
   */
  method MatchLimits(db: Ledger, taker: nat, maker: nat) returns (traded: bool)
    requires Valid(db) && taker in db.orders && maker in db.orders && taker != maker
    requires db.orders[taker].sells == db.orders[maker].wants && db.orders[taker].wants == db.orders[maker].sells
    requires db.orders[maker].ToReceive() > 0
    requires AtMost(Inverse(db.orders[taker].price), db.orders[maker].price)
    modifies db
    ensures Valid(db) && forall b :: db.Net(b) == old(db.Net(b))
    ensures forall id :: id in old(db.orders) && id != taker && id != maker ==> id in db.orders && db.orders[id] == old(db.orders)[id]
    ensures db.orders.Keys <= old(db.orders.Keys)
    ensures traded ==> taker !in db.orders || maker !in db.orders
    ensures traded && maker in db.orders ==> db.orders[maker].ToReceive() > 0
    ensures !traded ==> db.orders == old(db.orders) && db.orders[taker].ToReceive() == 0
    ensures NoLess(old(db.balances), db.balances)
    ensures traded ==> var t, m := old(db.orders[taker]), old(db.orders[maker]);
                       var q := QuoteLimits(t.forSale, m.forSale, m.price);
                       && q.Exchange?
                       && (taker in db.orders ==> db.orders[taker].forSale == t.forSale - q.takerPays)
                       && (maker in db.orders ==> db.orders[maker].forSale == m.forSale - q.takerReceives)
                       && Credited(old(db.balances), db.balances, t.seller, t.wants,
                                   q.takerReceives - db.MarketFee(t.wants, q.takerReceives, false))
                       && Credited(old(db.balances), db.balances, m.seller, m.wants,
                                   q.takerPays - db.MarketFee(m.wants, q.takerPays, true))
    ensures forall id :: id in db.orders ==> SameTerms(old(db.orders)[id], db.orders[id])
    ensures db.calls == old(db.calls) && db.settles == old(db.settles) && db.pool == old(db.pool)
    ensures db.debtOrder == old(db.debtOrder)
    ensures db.swan == old(db.swan) && db.response == old(db.response) && db.feed == old(db.feed)
  {
    hide Ledger.Net, Ledger.CoreGap, Ledger.TotalDebt, Ledger.DebtGap, ToBaseUp, ToQuoteUp, ToBase, ToQuote, AtMost, DivUp, DivDown, QuoteLimits,
         Solvent, PoolValid, FeedValid, SettlesValid, CallsOpen, NoLess, Credited, Ledger.MarketFee;
    SameIsNoLess(db.balances);
    var t, m := db.orders[taker], db.orders[maker];
    QuoteUsesUpOne(t, m);
    match QuoteLimits(t.forSale, m.forSale, m.price)
    case TakerTooSmall =>
      return false;
    case Exchange(pays, receives, takerSmaller) =>
      db.SwapFills(taker, maker, pays, receives, takerSmaller);
      return true;
  }

  /** The amounts when a limit order selling debt meets a margin call, at prices in debt per collateral. */
  datatype CallFill = NoFill | CallFill(covers: nat, limitReceives: nat, callPays: nat)

  function QuoteCall(forSale: nat, toBuy: nat, matchPrice: Price, paysPrice: Price): CallFill {
    if toBuy > forSale then
      var receives := ToQuote(forSale, matchPrice);
      if receives == 0 then NoFill
      else
        var covers := ToBaseUp(receives, matchPrice);
        CallFill(covers, receives, ToQuote(covers, paysPrice))
    else CallFill(toBuy, ToQuoteUp(toBuy, matchPrice), ToQuoteUp(toBuy, paysPrice))
  }

  /** At prices in order the margin call pays at least what the limit order receives, and neither side exceeds its amount. */
  lemma QuoteCallSound(forSale: nat, toBuy: nat, matchPrice: Price, paysPrice: Price)
    requires toBuy > 0
    ensures match QuoteCall(forSale, toBuy, matchPrice, paysPrice)
            case NoFill => ToQuote(forSale, matchPrice) == 0
            case CallFill(covers, receives, pays) =>
              && 0 < covers <= toBuy && covers <= forSale && 0 < receives
              && (AtMost(paysPrice, matchPrice) ==> receives <= pays)
              && (toBuy > forSale ==> covers < toBuy && ToQuote(forSale - covers, matchPrice) == 0)
  {
    if toBuy > forSale {
      if ToQuote(forSale, matchPrice) > 0 { SmallerLimitSound(forSale, matchPrice, paysPrice); }
    } else {
      LargerLimitSound(toBuy, matchPrice, paysPrice);
    }
  }

  lemma SmallerLimitSound(forSale: nat, matchPrice: Price, paysPrice: Price)
    requires ToQuote(forSale, matchPrice) > 0
    ensures var receives := ToQuote(forSale, matchPrice);
            var covers := ToBaseUp(receives, matchPrice);
            && 0 < covers <= forSale && (AtMost(paysPrice, matchPrice) ==> receives <= ToQuote(covers, paysPrice))
            && ToQuote(forSale - covers, matchPrice) == 0
  {
    hide ToQuote, ToBaseUp;
    var receives := ToQuote(forSale, matchPrice);
    QuoteLeavesDust(forSale, matchPrice);
    CostIsPositive(receives, matchPrice);
    if AtMost(paysPrice, matchPrice) { CoversAreWorthIt(receives, matchPrice, paysPrice); }
  }

  lemma QuoteLeavesDust(x: nat, p: Price)
    ensures ToBaseUp(ToQuote(x, p), p) <= x && ToQuote(x - ToBaseUp(ToQuote(x, p), p), p) == 0
  {
    ChangeBuysNothing(x, Inverse(p));
  }

  lemma CostIsPositive(x: nat, p: Price)
    requires x > 0
    ensures ToBaseUp(x, p) > 0
  {
    CostIsTight(x, Inverse(p));
  }

  lemma CoversAreWorthIt(receives: nat, matchPrice: Price, paysPrice: Price)
    requires AtMost(paysPrice, matchPrice)
    ensures receives <= ToQuote(ToBaseUp(receives, matchPrice), paysPrice)
  {
    var covers := ToBaseUp(receives, matchPrice);
    RoundUpIsLeast(covers, receives, matchPrice);
    QuoteAtLowerPrice(covers, paysPrice, matchPrice);
  }

  lemma QuoteAtLowerPrice(x: nat, low: Price, high: Price)
    requires AtMost(low, high)
    ensures ToQuote(x, high) <= ToQuote(x, low)
  {
    WorseRateConvertsLess(x, Inverse(high), Inverse(low));
  }

  lemma LargerLimitSound(toBuy: nat, matchPrice: Price, paysPrice: Price)
    requires toBuy > 0
    ensures 0 < ToQuoteUp(toBuy, matchPrice)
    ensures AtMost(paysPrice, matchPrice) ==> ToQuoteUp(toBuy, matchPrice) <= ToQuoteUp(toBuy, paysPrice)
  {
    CostIsTight(toBuy, matchPrice);
    if AtMost(paysPrice, matchPrice) { WorseRateConvertsLess(toBuy, Inverse(matchPrice), Inverse(paysPrice)); }
  }

  lemma ReducedIsValid(before: map<nat, LimitOrder>, id: nat, pays: nat, cull: bool, after: map<nat, LimitOrder>, filled: bool)
    requires forall i :: i in before ==> before[i].forSale > 0 && before[i].sells != before[i].wants
    requires id in before && pays <= before[id].forSale && Reduced(before, id, pays, cull, after, filled)
    ensures forall i :: i in after ==> after[i].forSale > 0 && after[i].sells != after[i].wants
  {
  }

  lemma CallsAfterIsOpen(calls: map<Account, Position>, x: Account, pays: nat, covers: nat)
    requires (forall y :: y in calls ==> Open(calls[y])) && x in calls && pays <= calls[x].collateral && covers <= calls[x].debt
    requires covers < calls[x].debt ==> pays < calls[x].collateral
    ensures forall y :: y in CallsAfter(calls, x, pays, covers) ==> Open(CallsAfter(calls, x, pays, covers)[y])
    ensures x in CallsAfter(calls, x, pays, covers) <==> covers < calls[x].debt
  {
  }

  /**
   * Executes such a match: the limit order is filled, the position pays, and the
   * difference is the issuer's margin call fee.
   */
  method FillLimitAndCall(db: Ledger, limit: nat, x: Account, fill: CallFill, cull: bool, limitIsMaker: bool)
    returns (limitFilled: bool, callFilled: bool)
    requires Valid(db) && db.swan.None? && limit in db.orders && x in db.calls && fill.CallFill?
    requires db.orders[limit].sells == db.p.mia && db.orders[limit].wants == db.p.backing
    requires fill.covers <= db.orders[limit].forSale && fill.covers <= db.calls[x].debt
    requires fill.limitReceives <= fill.callPays <= db.calls[x].collateral
    requires fill.covers < db.calls[x].debt ==> fill.callPays < db.calls[x].collateral
    modifies db
    ensures Valid(db) && forall b :: db.Net(b) == old(db.Net(b))
    ensures db.TotalDebt() == old(db.TotalDebt()) - fill.covers
    ensures Reduced(old(db.orders), limit, fill.covers, cull, db.orders, limitFilled)
    ensures db.settles == old(db.settles) && db.swan == old(db.swan) && db.response == old(db.response) && db.feed == old(db.feed)
    ensures db.debtOrder == old(db.debtOrder)
    ensures callFilled <==> x !in db.calls
    ensures db.calls == CallsAfter(old(db.calls), x, fill.callPays, fill.covers)
    ensures db.collateralFees == old(db.collateralFees) + (fill.callPays - fill.limitReceives) && NoLess(old(db.balances), db.balances)
    ensures var o := old(db.orders[limit]);
            Credited(old(db.balances), db.balances, o.seller, o.wants,
                     fill.limitReceives - db.MarketFee(o.wants, fill.limitReceives, limitIsMaker))
  {
    hide Ledger.Net, Ledger.CoreGap, NoLess, Credited, Ledger.MarketFee, BidsValid, SettlesValid, FeedValid, PoolValid, Reduced, CallsAfter, Ledger.TotalDebt, Ledger.DebtGap;
    ghost var orders, calls := db.orders, db.calls;
    limitFilled, callFilled := db.CoverWithLimit(limit, x, fill.covers, fill.limitReceives, fill.callPays, cull, limitIsMaker);
    ReducedIsValid(orders, limit, fill.covers, cull, db.orders, limitFilled);
    CallsAfterIsOpen(calls, x, fill.callPays, fill.covers);
  }

  /** Executes a settle-versus-position outcome. */
  method FillSettleAndCall(db: Ledger, id: nat, x: Account, o: Outcome, isMarginCall: bool, settleIsTaker: bool)
    requires Valid(db) && db.swan.None? && id in db.settles && x in db.calls && o.Settled?
    requires 0 < o.covers <= db.settles[id].balance && o.covers <= db.calls[x].debt
    requires o.settleReceives <= o.callPays <= db.calls[x].collateral
    requires o.covers < db.calls[x].debt ==> o.callPays < db.calls[x].collateral
    modifies db
    ensures Valid(db) && forall b :: db.Net(b) == old(db.Net(b))
    ensures db.TotalDebt() == old(db.TotalDebt()) - o.covers
    ensures db.orders == old(db.orders) && db.swan == old(db.swan) && db.response == old(db.response) && db.feed == old(db.feed)
    ensures db.settles == if o.cull || o.covers == old(db.settles[id].balance) then old(db.settles) - {id}
                          else old(db.settles[id := db.settles[id].(balance := db.settles[id].balance - o.covers)])
    ensures db.calls == CallsAfter(old(db.calls), x, o.callPays, o.covers)
    ensures NoLess(old(db.balances), db.balances)
    ensures Credited(old(db.balances), db.balances, old(db.settles[id].owner), db.p.backing,
                     db.SettleProceeds(o.settleReceives, !settleIsTaker, !isMarginCall))
  {
    hide Ledger.Net, Ledger.CoreGap, Ledger.TotalDebt, Ledger.DebtGap, NoLess, Credited, Ledger.SettleProceeds, BidsValid, OrdersValid, FeedValid, PoolValid;
    db.CoverWithSettle(id, x, o.covers, o.settleReceives, o.callPays, o.cull, !settleIsTaker, !isMarginCall);
  }
}
