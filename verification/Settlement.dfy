/**
 * Settling positions that can no longer pay: individually, into a fund or an order,
 * or all of them at once; redeeming debt from those funds; and reviving a market
 * from its global settlement.
 */
module Settlement {
  import opened Wrappers
  import opened Prices
  import opened PriceScale
  import opened MaxDebt
  import opened Sums
  import opened LimitQuotes
  import opened SettledDebt
  import opened SettleMatch
  import opened Feeds
  import opened Ledger
  import opened Market

  /** What the pool receives for a position that is settled individually: its collateral less the margin call fee. */
  function FundReceives(c: Position, f: Feed): (r: nat)
    requires Open(c) && f.Valid()
    ensures 0 < r <= c.collateral
  {
    var own := Pair(c.debt, c.collateral);
    var price := Unscale(own, f.CallNumerator(), f.mssr);
    ScaleKeepsSide(own, f.mssr, f.CallNumerator());
    OwnRatioFull(c, price);
    OneUnit(c.debt, price);
    ToQuoteUp(c.debt, price)
  }

  /**
   * Moves a position into the pool.  The capping of what the fund receives is never
   * needed, and the order selling the pool, if there is one, stays backed.
   */
  method IndividuallySettle(db: Ledger, x: Account)
    requires Valid(db) && db.swan.None? && x in db.calls && db.feed.Some?
    requires db.response == SettleToFund || db.response == SettleToOrder
    modifies db
    ensures Valid(db) && forall b :: db.Net(b) == old(db.Net(b))
    ensures NoLess(old(db.balances), db.balances)
    ensures db.calls == old(db.calls) - {x}
    ensures db.pool == PoolAfter(old(db.pool), old(db.calls[x]), old(db.feed.value))
    ensures db.TotalDebt() == old(db.TotalDebt() - db.calls[x].debt)
    ensures db.response == SettleToOrder
            ==> db.debtOrder == Some(OrderAfter(old(db.debtOrder), db.pool, old(db.feed.value)))
    ensures db.supply == old(db.supply) && db.orders == old(db.orders) && db.settles == old(db.settles)
    ensures db.swan == old(db.swan) && db.response == old(db.response)
    ensures db.feed == old(db.feed)
  {
    hide Ledger.Net, Ledger.CoreGap, Ledger.TotalDebt, Ledger.DebtGap;
    var c, f := db.calls[x], db.feed.value;
    var received := FundReceives(c, f);
    var pool := Pool(db.pool.debt + c.debt, db.pool.fund + received);
    var order := db.debtOrder;
    if db.response == SettleToOrder {
      order := if order.Some? then Some(Reprice(pool, Inverse(f.CallOrderPrice())))
               else Some(DebtOrder(received, Pair(received, c.debt)));
      assert order == Some(OrderAfter(db.debtOrder, pool, f));
    }
    db.SettleIntoPool(x, received, order);
  }

  /** The pool with one more position settled into it. */
  function PoolAfter(pool: Pool, c: Position, f: Feed): (r: Pool)
    requires Open(c) && f.Valid()
    ensures r.debt > 0 && r.fund > 0
  {
    Pool(pool.debt + c.debt, pool.fund + FundReceives(c, f))
  }

  /** The order on a pool that grew: an existing one is repriced, a new one offers the whole fund. */
  function OrderAfter(before: Option<DebtOrder>, pool: Pool, f: Feed): (o: DebtOrder)
    requires pool.debt > 0 && pool.fund > 0 && f.Valid()
    ensures Backed(pool, o)
  {
    if before.Some? then Reprice(pool, Inverse(f.CallOrderPrice()))
    else
      WholeFund(pool);
      DebtOrder(pool.fund, Pair(pool.fund, pool.debt))
  }

  /** After a feed update the order selling the pool is repriced, unless there is no valid feed. */
  method UpdateDebtOrder(db: Ledger)
    requires Valid(db)
    modifies db`debtOrder
    ensures Valid(db) && forall b :: db.Net(b) == old(db.Net(b))
    ensures db.debtOrder.Some? == old(db.debtOrder.Some?)
    ensures db.debtOrder.Some? && db.feed.Some?
            ==> db.debtOrder.value == Reprice(db.pool, Inverse(db.feed.value.CallOrderPrice()))
  {
    if db.feed.None? || db.debtOrder.None? { return; }
    db.debtOrder := Some(Reprice(db.pool, Inverse(db.feed.value.CallOrderPrice())));
  }

  /** What the pool gives up when a limit order is sold `covers` of its debt for `receives` collateral. */
  function FromPool(pool: Pool, o: DebtOrder, covers: nat, receives: nat, orderFilled: bool): nat
    requires pool.debt > 0 && pool.fund > 0
  {
    if orderFilled then pool.fund else PoolPays(pool, o, covers, receives)
  }

  lemma PoolCoversTrade(pool: Pool, o: DebtOrder, rate: Price, covers: nat, receives: nat)
    requires Backed(pool, o) && AtMost(rate, o.price) && 0 < covers <= pool.debt
    requires if covers < pool.debt then covers == ToQuoteUp(receives, rate) else receives == ToBaseUp(covers, rate)
    ensures var pays := FromPool(pool, o, covers, receives, covers == pool.debt);
            && receives <= pays <= pool.fund
            && (covers < pool.debt ==> Backed(Pool(pool.debt - covers, pool.fund - pays),
                                              DebtOrder(ToBaseUp(pool.debt - covers, o.price), o.price))
                                       && pays < pool.fund)
  {
    if covers == pool.debt {
      FullFillIsCovered(pool, o, rate);
    } else {
      PartialFillKeepsBacked(pool, o, rate, receives, covers);
    }
  }

  /**
   * The common end of both matches with the debt order, at `rate` in collateral per debt.
   * Neither defensive correction is ever needed: the pool pays at least
   * what the limit order receives, and afterwards still backs the order at its price.
   */
  method TradeWithPool(db: Ledger, limit: nat, rate: Price, covers: nat, receives: nat, cull: bool, limitIsMaker: bool)
    returns (limitGone: bool)
    requires Valid(db) && db.debtOrder.Some? && limit in db.orders
    requires db.orders[limit].sells == db.p.mia && db.orders[limit].wants == db.p.backing
    requires AtMost(rate, db.debtOrder.value.price)
    requires 0 < covers <= db.orders[limit].forSale && covers <= db.pool.debt && receives > 0
    requires covers < db.pool.debt ==> covers == ToQuoteUp(receives, rate)
    requires covers == db.pool.debt ==> receives == ToBaseUp(covers, rate)
    modifies db
    ensures Valid(db) && forall b :: db.Net(b) == old(db.Net(b))
    ensures NoLess(old(db.balances), db.balances)
    ensures db.pool.debt == old(db.pool.debt) - covers
    ensures db.debtOrder == if db.pool.debt == 0 then None
                            else Some(DebtOrder(ToBaseUp(db.pool.debt, old(db.debtOrder.value.price)), old(db.debtOrder.value.price)))
    ensures db.pool.fund == old(db.pool.fund) - (receives + (db.collateralFees - old(db.collateralFees)))
    ensures var o := old(db.orders[limit]);
            Credited(old(db.balances), db.balances, o.seller, o.wants, receives - db.MarketFee(o.wants, receives, limitIsMaker))
    ensures Reduced(old(db.orders), limit, covers, cull, db.orders, limitGone)
    ensures db.calls == old(db.calls) && db.settles == old(db.settles)
    ensures db.swan == old(db.swan) && db.response == old(db.response) && db.feed == old(db.feed)
  {
    hide Ledger.Net, Ledger.CoreGap, Ledger.TotalDebt, Ledger.DebtGap, ToBaseUp, ToQuoteUp, ToQuote, AtMost, DivUp, DivDown, NoLess, Credited, Ledger.MarketFee, Reduced,
         SettlesValid, CallsOpen, FeedValid, OrdersValid, CoreExact, Solvent;
    var o, pool, orderFilled := db.debtOrder.value, db.pool, covers == db.pool.debt;
    var callPays := FromPool(pool, o, covers, receives, orderFilled);
    PoolCoversTrade(pool, o, rate, covers, receives);
    assert callPays >= receives;
    var order := None;
    if !orderFilled {
      var forSale := ToBaseUp(pool.debt - covers, o.price);
      assert forSale <= pool.fund - callPays;
      order := Some(o.(forSale := forSale));
    }
    limitGone := ExecutePoolTrade(db, limit, covers, receives, callPays, order, cull, limitIsMaker);
  }

  /** Carries out such a trade, given amounts and an order that leave the pool in order. */
  method ExecutePoolTrade(db: Ledger, limit: nat, covers: nat, receives: nat, poolPays: nat, order: Option<DebtOrder>,
                          cull: bool, limitIsMaker: bool)
    returns (limitGone: bool)
    requires Valid(db) && db.debtOrder.Some? && limit in db.orders
    requires db.orders[limit].sells == db.p.mia && db.orders[limit].wants == db.p.backing
    requires 0 < covers <= db.orders[limit].forSale && covers <= db.pool.debt && receives <= poolPays <= db.pool.fund
    requires order.Some? <==> covers < db.pool.debt
    requires poolPays == db.pool.fund <==> covers == db.pool.debt
    requires order.Some? ==> Backed(Pool(db.pool.debt - covers, db.pool.fund - poolPays), order.value)
    modifies db
    ensures Valid(db) && forall b :: db.Net(b) == old(db.Net(b))
    ensures NoLess(old(db.balances), db.balances)
    ensures db.pool == old(Pool(db.pool.debt - covers, db.pool.fund - poolPays)) && db.debtOrder == order
    ensures db.collateralFees == old(db.collateralFees) + (poolPays - receives)
    ensures var o := old(db.orders[limit]);
            Credited(old(db.balances), db.balances, o.seller, o.wants, receives - db.MarketFee(o.wants, receives, limitIsMaker))
    ensures Reduced(old(db.orders), limit, covers, cull, db.orders, limitGone)
    ensures db.calls == old(db.calls) && db.settles == old(db.settles)
    ensures db.swan == old(db.swan) && db.response == old(db.response) && db.feed == old(db.feed)
  {
    hide Ledger.Net, Ledger.CoreGap, Ledger.TotalDebt, Ledger.DebtGap, ToBaseUp, ToQuote, NoLess, Credited, Ledger.MarketFee, SettlesValid, CallsOpen, FeedValid, Backed;
    limitGone := db.SellToPool(limit, covers, receives, poolPays, order, cull, limitIsMaker);
  }

  /** A new limit order buys the settled collateral at the debt order's price. */
  method MatchLimitWithDebtOrder(db: Ledger, taker: nat) returns (takerGone: bool, orderGone: bool)
    requires Valid(db) && db.debtOrder.Some? && taker in db.orders
    requires db.orders[taker].sells == db.p.mia && db.orders[taker].wants == db.p.backing
    requires AtMost(Inverse(db.orders[taker].price), db.debtOrder.value.price)
    modifies db
    ensures Valid(db) && forall b :: db.Net(b) == old(db.Net(b))
    ensures NoLess(old(db.balances), db.balances)
    ensures orderGone <==> old(db.pool.debt <= db.orders[taker].forSale)
    ensures orderGone <==> db.debtOrder.None?
    ensures !orderGone ==> db.debtOrder.value.price == old(db.debtOrder.value.price)
    ensures orderGone ==> db.pool == Pool(0, 0)
    ensures takerGone ==> taker !in db.orders || db.orders[taker].ToReceive() == 0
    ensures !takerGone ==> orderGone && taker in db.orders
    ensures forall id :: id in db.orders ==> id in old(db.orders) && SameTerms(old(db.orders)[id], db.orders[id])
    ensures forall id :: id in db.orders && id != taker ==> db.orders[id] == old(db.orders)[id]
    ensures db.calls == old(db.calls) && db.settles == old(db.settles)
    ensures db.swan == old(db.swan) && db.response == old(db.response) && db.feed == old(db.feed)
  {
    hide Ledger.Net, Ledger.CoreGap, Ledger.TotalDebt, Ledger.DebtGap;
    var o, usdForSale := db.debtOrder.value, db.orders[taker].forSale;
    ghost var price := db.orders[taker].price;
    if db.pool.debt > usdForSale {
      var receives := ToBase(usdForSale, o.price);
      if receives == 0 {
        WorseRateConvertsLess(usdForSale, Inverse(price), o.price);
        return true, false;
      }
      var covers := ToQuoteUp(receives, o.price);
      ChangeBuysNothing(usdForSale, o.price);
      CostIsTight(receives, o.price);
      WorseRateConvertsLess(usdForSale - covers, Inverse(price), o.price);
      takerGone := TradeWithPool(db, taker, o.price, covers, receives, true, false);
      return takerGone, false;
    }
    CostIsTight(db.pool.debt, Inverse(o.price));
    takerGone := TradeWithPool(db, taker, o.price, db.pool.debt, o.forSale, false, false);
    return takerGone, true;
  }

  /** The debt order takes a limit order already on the book, at that order's price. */
  method MatchDebtOrderWithLimit(db: Ledger, maker: nat) returns (makerGone: bool, orderGone: bool)
    requires Valid(db) && db.debtOrder.Some? && maker in db.orders && db.orders[maker].ToReceive() > 0
    requires db.orders[maker].sells == db.p.mia && db.orders[maker].wants == db.p.backing
    requires AtMost(Inverse(db.orders[maker].price), db.debtOrder.value.price)
    modifies db
    ensures Valid(db) && forall b :: db.Net(b) == old(db.Net(b))
    ensures NoLess(old(db.balances), db.balances)
    ensures orderGone <==> old(db.pool.debt <= db.orders[maker].forSale)
    ensures orderGone <==> db.debtOrder.None?
    ensures !orderGone ==> db.debtOrder.value.price == old(db.debtOrder.value.price)
    ensures orderGone ==> db.pool == Pool(0, 0)
    ensures makerGone || orderGone
    ensures makerGone <==> maker !in db.orders
    ensures exists covers: nat, cull: bool, filled: bool ::
              covers <= old(db.orders)[maker].forSale && Reduced(old(db.orders), maker, covers, cull, db.orders, filled)
    ensures maker in db.orders ==> db.orders[maker].ToReceive() > 0
    ensures db.pool.debt < old(db.pool.debt)
    ensures db.calls == old(db.calls) && db.settles == old(db.settles)
    ensures db.swan == old(db.swan) && db.response == old(db.response) && db.feed == old(db.feed)
  {
    hide Ledger.Net, Ledger.CoreGap, Ledger.TotalDebt, Ledger.DebtGap;
    var usdForSale, price := db.orders[maker].forSale, db.orders[maker].price;
    var rate := Inverse(price);
    if db.pool.debt > usdForSale {
      var receives := ToBase(usdForSale, rate);
      var covers := ToQuoteUp(receives, rate);
      ChangeBuysNothing(usdForSale, rate);
      CostIsTight(receives, rate);
      makerGone := TradeWithPool(db, maker, rate, covers, receives, true, true);
      return makerGone, false;
    }
    CostIsTight(db.pool.debt, price);
    makerGone := TradeWithPool(db, maker, rate, db.pool.debt, ToBaseUp(db.pool.debt, rate), true, true);
    return makerGone, true;
  }

  // Global settlement

  /** What one position pays on global settlement, and how much of it reaches the fund; the rest is fee. */
  function SwanShare(c: Position, paysPrice: Price, fundPrice: Price, isMarginCall: bool): (r: (nat, nat))
    requires Open(c)
    ensures 0 < r.1 <= r.0 <= c.collateral
    ensures !isMarginCall ==> r.0 == r.1
    ensures r.0 == c.collateral || r.0 == ToQuoteUp(c.debt, paysPrice)
  {
    OneUnit(c.debt, paysPrice);
    OneUnit(c.debt, fundPrice);
    var owed := ToQuoteUp(c.debt, paysPrice);
    var pays := if owed > c.collateral then c.collateral else owed;
    var due := ToQuoteUp(c.debt, fundPrice);
    (pays, if !isMarginCall || due > pays then pays else due)
  }

  /**
   * The prices of a global settlement, in debt per collateral: what called positions pay, what
   * the others pay, and what the fund receives; and at most how much collateral per debt a
   * called position has, if that matters.
   */
  datatype SwanTerms = SwanTerms(callPrice: Price, restPrice: Price, fundPrice: Price, maintenance: Option<Price>)
  {
    predicate Calls(c: Position)
      requires Open(c)
    {
      maintenance.Some? && AtMost(Collateralization(c), maintenance.value)
    }

    /** What a position pays, and how much of it reaches the fund. */
    function Share(c: Position): (r: (nat, nat))
      requires Open(c)
      ensures 0 < r.1 <= r.0 <= c.collateral
    {
      SwanShare(c, if Calls(c) then callPrice else restPrice, fundPrice, Calls(c))
    }
  }

  /** With margin calls among them, the other positions pay only what the fund receives. */
  function TermsOf(calls: map<Account, Position>, price: Price, feed: Option<Feed>): (t: SwanTerms)
    requires (forall x :: x in calls ==> Open(calls[x])) && (feed.Some? ==> feed.value.Valid())
  {
    if feed.None? then SwanTerms(price, price, price, None)
    else
      var fundPrice := Scale(price, feed.value.mssr, RATIO_DENOM);
      var maintenance := feed.value.Maintenance();
      var anyCalled := exists x :: x in calls && AtMost(Collateralization(calls[x]), maintenance);
      SwanTerms(price, if anyCalled then fundPrice else price, fundPrice, Some(maintenance))
  }

  ghost function ToFund(t: SwanTerms): (Account, Position) -> int {
    (x: Account, c: Position) => if Open(c) then t.Share(c).1 else 0
  }

  ghost function SwanFee(t: SwanTerms): (Account, Position) -> int {
    (x: Account, c: Position) => if Open(c) then t.Share(c).0 - t.Share(c).1 else 0
  }

  /** Owners of the positions that are gone have what these did not have to pay; no other balance moved. */
  ghost predicate Returned(before: map<(Account, Asset), nat>, after: map<(Account, Asset), nat>, backing: Asset,
                           calls: map<Account, Position>, left: map<Account, Position>, t: SwanTerms)
    requires forall x :: x in calls ==> Open(calls[x])
  {
    forall k :: Get(after, k) == Get(before, k) + if k.1 == backing && k.0 in calls && k.0 !in left
                                                  then calls[k.0].collateral - t.Share(calls[k.0]).0 else 0
  }

  /**
   * Closes every position at the given price in debt per collateral and gathers the
   * collateral in the settlement fund.  The supply does not change; the settlement
   * price is that supply over what was gathered, which is what each position owes the
   * fund, together with the individual fund.  Owners get back the rest.
   */
  method GloballySettle(db: Ledger, price: Price, checkMarginCalls: bool)
    requires Valid(db) && db.swan.None? && Get(db.supply, db.p.mia) > 0
    requires checkMarginCalls ==> db.feed.Some?
    modifies db
    ensures Valid(db) && forall b :: db.Net(b) == old(db.Net(b))
    ensures NoLess(old(db.balances), db.balances)
    ensures db.calls == map[] && db.pool == Pool(0, 0) && db.debtOrder.None? && db.supply == old(db.supply)
    ensures db.swanFund > 0 && db.swan == Some(Pair(Get(db.supply, db.p.mia), db.swanFund))
    ensures db.orders == old(db.orders) && db.settles == old(db.settles) && db.bids == old(db.bids)
    ensures var t := old(TermsOf(db.calls, price, if checkMarginCalls then db.feed else None));
            && db.swanFund == old(db.pool.fund + Sum(db.calls, ToFund(t)))
            && db.collateralFees == old(db.collateralFees + Sum(db.calls, SwanFee(t)))
            && Returned(old(db.balances), db.balances, db.p.backing, old(db.calls), map[], t)
  {
    hide Ledger.Net, Ledger.CoreGap, Returned, TermsOf, NoLess, SettlesValid, OrdersValid;
    ghost var noCalls := db.calls == map[];
    if noCalls { assert db.TotalDebt() == 0; }
    var t := TermsOf(db.calls, price, if checkMarginCalls then db.feed else None);
    var gathered := CloseAllPositions(db, t);
    ReturnedIsNoLess(old(db.balances), db.balances, db.p.backing, old(db.calls), db.calls, t);
    db.EnterSwan(gathered);
    assert Get(db.supply, db.p.mia) * db.swanFund == db.swanFund * Get(db.supply, db.p.mia);
  }

  lemma ReturnedIsNoLess(before: map<(Account, Asset), nat>, after: map<(Account, Asset), nat>, backing: Asset,
                         calls: map<Account, Position>, left: map<Account, Position>, t: SwanTerms)
    requires (forall x :: x in calls ==> Open(calls[x])) && Returned(before, after, backing, calls, left, t)
    ensures NoLess(before, after)
  {
  }

  method CloseAllPositions(db: Ledger, t: SwanTerms) returns (gathered: nat)
    requires CallsOpen(db) && CoreExact(db)
    modifies db`balances, db`calls, db`supply, db`collateralFees, db`coreInOrders
    ensures db.calls == map[] && db.supply == old(db.supply) && CoreExact(db)
    ensures forall b :: db.Net(b) == old(db.Net(b)) - if b == db.p.backing then gathered else 0
    ensures Returned(old(db.balances), db.balances, db.p.backing, old(db.calls), db.calls, t)
    ensures gathered == old(Sum(db.calls, ToFund(t))) && (old(db.calls) != map[] ==> gathered > 0)
    ensures db.collateralFees == old(db.collateralFees + Sum(db.calls, SwanFee(t)))
  {
    hide Ledger.Net, Ledger.CoreGap, Ledger.TotalDebt, Ledger.DebtGap, Returned, SwanTerms.Share;
    ghost var calls, balances := db.calls, db.balances;
    gathered := 0;
    NothingReturned(balances, db.p.backing, calls, t);
    while db.calls != map[]
      invariant CallsOpen(db) && CoreExact(db) && db.supply == old(db.supply) && Remaining(db.calls, calls)
      invariant forall b :: db.Net(b) == old(db.Net(b)) - if b == db.p.backing then gathered else 0
      invariant Returned(balances, db.balances, db.p.backing, calls, db.calls, t)
      invariant gathered + Sum(db.calls, ToFund(t)) == Sum(calls, ToFund(t)) && (db.calls != calls ==> gathered > 0)
      invariant db.collateralFees + Sum(db.calls, SwanFee(t)) == old(db.collateralFees) + Sum(calls, SwanFee(t))
      decreases |db.calls|
    {
      gathered := ClosePosition(db, t, gathered, calls, balances);
    }
  }

  ghost predicate Remaining(left: map<Account, Position>, calls: map<Account, Position>) {
    forall x :: x in left ==> x in calls && left[x] == calls[x]
  }

  lemma NothingReturned(balances: map<(Account, Asset), nat>, backing: Asset, calls: map<Account, Position>, t: SwanTerms)
    requires forall x :: x in calls ==> Open(calls[x])
    ensures Returned(balances, balances, backing, calls, calls, t)
  {
  }

  lemma OneReturned(before: map<(Account, Asset), nat>, between: map<(Account, Asset), nat>, after: map<(Account, Asset), nat>,
                    backing: Asset, calls: map<Account, Position>, left: map<Account, Position>, x: Account, t: SwanTerms)
    requires (forall y :: y in calls ==> Open(calls[y])) && Remaining(left, calls) && x in left
    requires Returned(before, between, backing, calls, left, t)
    requires var back := calls[x].collateral - t.Share(calls[x]).0;
             after == if back > 0 then between[(x, backing) := Get(between, (x, backing)) + back] else between
    ensures Returned(before, after, backing, calls, left - {x}, t)
  {
  }

  lemma SharesSplit(calls: map<Account, Position>, x: Account, t: SwanTerms)
    requires x in calls && Open(calls[x])
    ensures Sum(calls, ToFund(t)) == t.Share(calls[x]).1 + Sum(calls - {x}, ToFund(t))
    ensures Sum(calls, SwanFee(t)) == t.Share(calls[x]).0 - t.Share(calls[x]).1 + Sum(calls - {x}, SwanFee(t))
  {
    hide SwanTerms.Share;
    SumRemove(calls, x, ToFund(t));
    SumRemove(calls, x, SwanFee(t));
  }

  lemma OneClosed(calls: map<Account, Position>, x: Account, pays: nat)
    requires x in calls && pays <= calls[x].collateral
    ensures CallsAfter(calls, x, pays, calls[x].debt) == calls - {x} && |calls - {x}| < |calls|
  {
    assert (calls - {x}).Keys == calls.Keys - {x};
  }

  /** Closes one of the remaining positions. */
  method ClosePosition(db: Ledger, t: SwanTerms, gathered: nat, ghost calls: map<Account, Position>,
                       ghost balances: map<(Account, Asset), nat>)
    returns (more: nat)
    requires CallsOpen(db) && CoreExact(db) && db.calls != map[] && Remaining(db.calls, calls) && forall x :: x in calls ==> Open(calls[x])
    requires Returned(balances, db.balances, db.p.backing, calls, db.calls, t)
    modifies db`balances, db`calls, db`supply, db`collateralFees, db`coreInOrders
    ensures CallsOpen(db) && CoreExact(db) && db.supply == old(db.supply) && Remaining(db.calls, calls)
    ensures |db.calls| < old(|db.calls|) && more > gathered
    ensures forall b :: db.Net(b) == old(db.Net(b)) - if b == db.p.backing then more - gathered else 0
    ensures Returned(balances, db.balances, db.p.backing, calls, db.calls, t)
    ensures more + Sum(db.calls, ToFund(t)) == gathered + old(Sum(db.calls, ToFund(t)))
    ensures db.collateralFees + Sum(db.calls, SwanFee(t)) == old(db.collateralFees + Sum(db.calls, SwanFee(t)))
  {
    hide Ledger.Net, Ledger.CoreGap, Ledger.TotalDebt, Ledger.DebtGap, Returned, SwanTerms.Share, ToFund, SwanFee, CallsAfter;
    var x :| x in db.calls;
    var c := db.calls[x];
    var (pays, fundReceives) := t.Share(c);
    ghost var before, between := db.calls, db.balances;
    SharesSplit(before, x, t);
    var filled := db.FillCallOrder(x, pays, c.debt, pays - fundReceives, false);
    OneClosed(before, x, pays);
    OneReturned(balances, between, db.balances, db.p.backing, calls, before, x, t);
    more := gathered + fundReceives;
  }

  // Redemption

  /** Amounts of one redemption from the settlement fund at `s`: what is paid in and what is paid out. */
  function Redeem(amount: nat, supply: nat, fund: nat, s: Price): (nat, nat) {
    if amount == supply then (amount, fund)
    else
      var out := ToQuote(amount, s);
      (if out == 0 then amount else ToBaseUp(out, s), out)
  }

  /**
   * The fund always suffices, strictly unless everything is redeemed; nobody pays in
   * more than asked; and the fund still covers the remaining supply at the price.
   */
  lemma RedeemKeepsSolvent(amount: nat, supply: nat, fund: nat, s: Price)
    requires 0 < amount <= supply && supply * s.quote <= fund * s.base
    ensures var (paid, out) := Redeem(amount, supply, fund, s);
            && paid <= amount && out <= fund && (amount < supply ==> out < fund)
            && (supply - paid) * s.quote <= (fund - out) * s.base
            && (out > 0 && amount < supply ==> ToQuote(paid, s) == out)
  {
    if amount < supply {
      var out := ToQuote(amount, s);
      RoundUpIsLeast(amount, out, s);
      MulStrict(amount, supply, s.quote);
      MulCancelStrict(out, fund, s.base);
      var paid := if out == 0 then amount else ToBaseUp(out, s);
      assert out * s.base <= paid * s.quote;
      TakeBoth(s.quote, s.base, supply, fund, paid, out);
      if out > 0 {
        RoundUpIsLeast(paid, out, s);
        ConvertMono(paid, amount, s);
      }
    }
  }

  /** The issuer's share when settled collateral exceeds what the margin call order price would give. */
  function CollateralFee(paid: nat, out: nat, feed: Option<Feed>): (fee: nat)
    requires feed.Some? ==> feed.value.Valid()
    ensures fee <= out && (fee > 0 ==> feed.Some? && out - fee == ToQuoteUp(paid, feed.value.CallOrderPrice()))
    ensures feed.Some? && ToQuoteUp(paid, feed.value.CallOrderPrice()) <= MAX_SHARE_SUPPLY
            ==> out - fee <= ToQuoteUp(paid, feed.value.CallOrderPrice())
  {
    if feed.None? then 0
    else
      var due := ToQuoteUp(paid, feed.value.CallOrderPrice());
      if due <= MAX_SHARE_SUPPLY && due < out then out - due else 0
  }

  /** Pays an amount out of a global settlement fund. */
  method RedeemFromSwanFund(db: Ledger, x: Account, amount: nat) returns (ok: bool, paid: nat)
    requires Valid(db) && db.swan.Some? && 0 < amount <= Get(db.supply, db.p.mia)
    modifies db
    ensures Valid(db) && forall b :: db.Net(b) == old(db.Net(b))
    ensures db.swan == old(db.swan) && db.orders == old(db.orders)
    ensures !ok ==> db.balances == old(db.balances) && db.swanFund == old(db.swanFund) && db.supply == old(db.supply)
    ensures ok ==> var (p, out) := Redeem(amount, old(Get(db.supply, db.p.mia)), old(db.swanFund), db.swan.value);
                   && paid == p && db.swanFund == old(db.swanFund) - out && out > 0
                   && Get(db.supply, db.p.mia) == old(Get(db.supply, db.p.mia)) - paid
                   && Swapped(old(db.balances), db.balances, x, db.p.mia, paid, db.p.backing,
                              db.SettleProceeds(out - CollateralFee(paid, out, old(db.feed)), false, false))
  {
    hide Ledger.Net, Ledger.CoreGap, Ledger.TotalDebt, Ledger.DebtGap, Swapped, Ledger.SettleProceeds;
    var supply := Get(db.supply, db.p.mia);
    RedeemKeepsSolvent(amount, supply, db.swanFund, db.swan.value);
    var (p, out) := Redeem(amount, supply, db.swanFund, db.swan.value);
    if out == 0 || !db.CanPay(x, db.p.mia, p) { return false, 0; }
    paid := p;
    db.TakeFromSwanFund(out);
    db.RetireDebt(x, paid, out, CollateralFee(paid, out, db.feed));
    return true, paid;
  }

  /** The debt redeemed from the individual fund by an amount, and what the fund gives up for it: everything, or at its own ratio. */
  function PoolRedemption(pool: Pool, amount: nat): (nat, nat)
    requires pool.debt > 0 && pool.fund > 0
  {
    if amount >= pool.debt then (pool.debt, pool.fund)
    else
      var price := Pair(pool.debt, pool.fund);
      var out := ToQuote(amount, price);
      (ToBaseUp(out, price), out)
  }

  /** The rounding of a redemption favours those who stay. */
  lemma PoolRatioKept(pool: Pool, amount: nat)
    requires pool.debt > 0 && pool.fund > 0 && amount > 0
    ensures var (paid, out) := PoolRedemption(pool, amount);
            out > 0 ==> && 0 < paid <= amount && paid <= pool.debt && out <= pool.fund
                        && (paid == pool.debt <==> out == pool.fund) && (paid == pool.debt <==> amount >= pool.debt)
                        && pool.fund * (pool.debt - paid) <= (pool.fund - out) * pool.debt
  {
    var price := Pair(pool.debt, pool.fund);
    if amount < pool.debt && ToQuote(amount, price) > 0 {
      RedeemKeepsSolvent(amount, pool.debt, pool.fund, price);
      CostIsTight(ToQuote(amount, price), Inverse(price));
    }
  }

  /** Pays an amount out of the individual settlement fund, at the fund's own ratio, which never falls. */
  method RedeemFromPool(db: Ledger, x: Account, amount: nat) returns (ok: bool, paid: nat)
    requires Valid(db) && db.swan.None? && db.response == SettleToFund && db.pool.debt > 0 && amount > 0
    modifies db
    ensures Valid(db) && forall b :: db.Net(b) == old(db.Net(b))
    ensures !ok ==> db.balances == old(db.balances) && db.pool == old(db.pool)
    ensures db.orders == old(db.orders)
    ensures ok ==> 0 < paid <= amount && db.pool.debt == old(db.pool.debt) - paid && db.pool.fund <= old(db.pool.fund)
    ensures ok ==> old(db.pool.fund) * db.pool.debt <= db.pool.fund * old(db.pool.debt)
    ensures ok && amount >= old(db.pool.debt) ==> db.pool == Pool(0, 0)
    ensures ok ==> (paid, old(db.pool.fund) - db.pool.fund) == PoolRedemption(old(db.pool), amount)
    ensures ok ==> var out := old(db.pool.fund) - db.pool.fund;
                   Swapped(old(db.balances), db.balances, x, db.p.mia, paid, db.p.backing,
                           db.SettleProceeds(out - CollateralFee(paid, out, old(db.feed)), false, false))
  {
    hide Ledger.Net, Ledger.CoreGap, Ledger.TotalDebt, Ledger.DebtGap, Swapped, Ledger.SettleProceeds, CollateralFee, CallsOpen, OrdersValid, SettlesValid, CoreExact, BidsValid,
         PoolRedemption;
    var (debt, out) := PoolRedemption(db.pool, amount);
    PoolRatioKept(db.pool, amount);
    if out == 0 || !db.CanPay(x, db.p.mia, debt) { return false, 0; }
    paid := debt;
    db.RetirePoolDebt(x, paid, out, CollateralFee(paid, out, db.feed));
    return true, paid;
  }
}
