/**
 * The margin call loop: black swan detection, matching called positions with limit
 * orders and with force settlements, and selling the settled debt afterwards.
 */
module MarginCalls {
  import opened Wrappers
  import opened Prices
  import opened PriceScale
  import opened ScaleError
  import opened MaxDebt
  import opened Sums
  import opened SettledDebt
  import opened SettleMatch
  import opened Feeds
  import opened Ledger
  import opened Market
  import opened Finders
  import opened Settlement

  /**
   * How a run of the loop ends.  `Rejected`: the surrounding transaction fails and is
   * undone.  `Stuck`: a called position has nothing to cover, on which the chain would
   * not make progress.
   */
  datatype Status = Done | Rejected | Stuck

  /** No limit order is too small to receive anything. */
  ghost predicate NoDust(db: Ledger)
    reads db`orders
  {
    forall id :: id in db.orders ==> db.orders[id].ToReceive() > 0
  }

  /** In margin call territory. */
  predicate Called(f: Feed, c: Position)
    requires f.Valid() && Open(c)
  {
    AtMost(Collateralization(c), f.Maintenance())
  }

  /** The maintenance collateralization and a position's target are represented without rounding. */
  predicate TargetExact(f: Feed, target: Option<nat>)
    requires f.Valid()
  {
    && Fits(Reduce(f.median.quote * f.mcr, f.median.base * RATIO_DENOM))
    && (target.Some? ==>
          Fits(Reduce(f.median.quote * (if target.value > f.mcr then target.value else f.mcr), f.median.base * RATIO_DENOM)))
  }

  ghost predicate AllExact(f: Option<Feed>, calls: map<Account, Position>)
    requires f.Some? ==> f.value.Valid()
  {
    f.Some? ==> forall x :: x in calls ==> TargetExact(f.value, calls[x].targetRatio)
  }

  /** How much of a called position may be covered at `paysPrice`, in debt per collateral. */
  function CoverQuery(f: Feed, c: Position, paysPrice: Price): Query
    requires f.Valid()
  {
    Query(c, Inverse(paysPrice), Inverse(f.median), f.mcr, f.Maintenance())
  }

  /** A called position with a target of which nothing is to be covered at that price. */
  ghost predicate CoversNone(f: Feed, c: Position, paysPrice: Price)
    requires f.Valid() && Open(c)
  {
    Called(f, c) && c.targetRatio.Some? && CoversNothing(CoverQuery(f, c, paysPrice))
  }

  /** Only rounding makes that happen. */
  lemma CoversNoneIsInexact(f: Feed, c: Position, paysPrice: Price)
    requires f.Valid() && Open(c) && CoversNone(f, c, paysPrice)
    ensures !TargetExact(f, c.targetRatio)
  {
    if TargetExact(f, c.targetRatio) { ExactFeedCoversSomething(CoverQuery(f, c, paysPrice)); }
  }

  /**
   * The limit for a called position, zero meaning stuck.  A limit that leaves debt leaves
   * collateral too and, under an exact feed, raises the ratio of the position.
   */
  method CoverLimit(f: Feed, c: Position, paysPrice: Price) returns (limit: nat)
    requires f.Valid() && Open(c) && Called(f, c)
    ensures limit <= c.debt
    ensures limit > 0 ==> LimitAffordable(c, paysPrice, limit)
    ensures TargetExact(f, c.targetRatio) ==> limit > 0 && LimitRaisesRatio(c, paysPrice, limit)
    ensures limit == 0 <==> CoversNone(f, c, paysPrice)
  {
    var q := CoverQuery(f, c, paysPrice);
    assert Inverse(q.rate) == paysPrice;
    limit := MaxDebtToCover(q);
    if TargetExact(f, c.targetRatio) {
      assert FeedIsExact(q);
      if c.targetRatio.Some? { ExactFeedCoversSomething(q); }
      MaxDebtRaisesRatio(q, limit);
    }
  }

  /** The feed re-derived from the median, the positions and the pool. */
  ghost predicate FeedUpdated(before: Option<Feed>, after: Option<Feed>, response: Response, calls: map<Account, Position>,
                              pool: Pool)
    requires forall x :: x in calls ==> Open(calls[x])
    requires before.Some? ==> before.value.Valid()
    requires pool.debt > 0 ==> pool.fund > 0
  {
    if before.None? then after.None?
    else if response == NoSettlement && calls != map[] then
      exists x :: x in calls && IsLeast(calls, x)
                  && after == Some(Refreshed(before.value, response, Some(calls[x]), pool.debt, pool.fund))
    else after == Some(Refreshed(before.value, response, None, pool.debt, pool.fund))
  }

  /** Re-derives the current price of the feed. */
  method UpdateCurrentFeed(db: Ledger)
    requires FeedValid(db) && CallsOpen(db) && PoolValid(db)
    modifies db`feed
    ensures FeedUpdated(old(db.feed), db.feed, db.response, db.calls, db.pool)
    ensures FeedValid(db) && SameFeed(old(db.feed), db.feed)
  {
    if db.feed.None? { return; }
    var least := None;
    if db.response == NoSettlement && db.calls != map[] {
      LeastExists(db.calls);
      var x :| x in db.calls && IsLeast(db.calls, x);
      least := Some(db.calls[x]);
    }
    db.SetFeed(Refreshed(db.feed.value, db.response, least, db.pool.debt, db.pool.fund));
  }

  // Black swans

  /** The price a margin call pays when it is matched with a limit order at `price`. */
  function PaidFor(f: Feed, price: Price): Price
    requires f.Valid()
  {
    Scale(price, f.CallNumerator(), f.mssr)
  }

  /** The highest price, in debt per collateral, at which positions are still expected to pay. */
  function Highest(f: Feed, response: Response, best: Option<Price>): Price
    requires f.Valid()
  {
    var floor := if response == SettleToFund then Scale(f.median, RATIO_DENOM, f.mssr) else f.SqueezePrice();
    if best.None? then floor
    else
      var pays := PaidFor(f, best.value);
      if response != SettleToFund then MaxPrice(pays, floor)
      else if AtMost(f.SqueezePrice(), pays) then pays else floor
  }

  /** The position cannot pay that price. */
  predicate IsSwan(c: Position, highest: Price)
    requires Open(c)
  {
    Less(highest, Pair(c.debt, c.collateral))
  }

  function PriceOf(orders: map<nat, LimitOrder>, best: Option<nat>): Option<Price>
    requires best.Some? ==> best.value in orders
  {
    if best.Some? then Some(orders[best.value].price) else None
  }

  lemma DebtIsPositive(db: Ledger)
    requires CallsOpen(db)
    ensures db.TotalDebt() >= 0
    ensures db.calls != map[] ==> db.TotalDebt() > 0
  {
    assert forall x :: x in db.calls ==> DebtOf()(x, db.calls[x]) >= 0;
    SumBounds(db.calls, DebtOf());
    if db.calls != map[] {
      var x :| x in db.calls;
      assert DebtOf()(x, db.calls[x]) > 0;
    }
  }

  /** Settles one position individually; with a fund the current price then follows the pool. */
  method SettleOne(db: Ledger, x: Account)
    requires Valid(db) && db.swan.None? && x in db.calls && db.feed.Some?
    requires db.response == SettleToFund || db.response == SettleToOrder
    modifies db
    ensures Valid(db) && forall b :: db.Net(b) == old(db.Net(b))
    ensures NoLess(old(db.balances), db.balances)
    ensures db.calls == old(db.calls) - {x}
    ensures db.TotalDebt() < old(db.TotalDebt())
    ensures db.orders == old(db.orders) && db.settles == old(db.settles)
    ensures db.swan == old(db.swan) && db.response == old(db.response)
    ensures SameFeed(old(db.feed), db.feed) && (db.response != SettleToFund ==> db.feed == old(db.feed))
  {
    hide Ledger.Net, Ledger.CoreGap, Ledger.TotalDebt, Ledger.DebtGap;
    IndividuallySettle(db, x);
    if db.response == SettleToFund {
      UpdateCurrentFeed(db);
    }
  }

  /** What one look at the least collateralized position led to. */
  datatype SwanResult = NoSwan | Refused | SettledOne | SettledAll

  /** Every position is one that was there before, unchanged. */
  ghost predicate Fewer(calls: map<Account, Position>, before: map<Account, Position>) {
    forall x :: x in calls ==> x in before && calls[x] == before[x]
  }

  ghost predicate SameFeed(before: Option<Feed>, after: Option<Feed>) {
    before.Some? == after.Some? && (before.Some? ==> SameParameters(before.value, after.value))
  }

  method SwanStep(db: Ledger, enableSwan: bool, best: Option<Price>) returns (r: SwanResult)
    requires Valid(db) && db.swan.None? && db.feed.Some? && db.calls != map[]
    modifies db
    ensures Valid(db) && forall b :: db.Net(b) == old(db.Net(b))
    ensures NoLess(old(db.balances), db.balances)
    ensures db.orders == old(db.orders) && db.settles == old(db.settles)
    ensures r == Refused ==> !enableSwan
    ensures r == SettledAll <==> db.swan.Some?
    ensures r == NoSwan || r == Refused ==> db.calls == old(db.calls) && db.feed == old(db.feed)
    ensures r != SettledAll ==> db.response == old(db.response) && SameFeed(old(db.feed), db.feed)
    ensures r == SettledOne ==> && db.TotalDebt() < old(db.TotalDebt()) && |db.calls| < old(|db.calls|)
                                && Fewer(db.calls, old(db.calls))
                                && (db.response == SettleToFund || db.response == SettleToOrder)
                                && (db.response != SettleToFund ==> db.feed == old(db.feed))
    ensures r == NoSwan ==> AllPay(db.calls, Highest(db.feed.value, db.response, best))
    ensures r == Refused ==> !AllPay(db.calls, Highest(db.feed.value, db.response, best))
    ensures old(AllPay(db.calls, Highest(db.feed.value, db.response, best))) ==> r == NoSwan
    ensures !enableSwan ==> db.swan.None?
  {
    hide Ledger.Net, Ledger.CoreGap, Ledger.TotalDebt, Ledger.DebtGap;
    LeastExists(db.calls);
    var x :| x in db.calls && IsLeast(db.calls, x);
    var highest := Highest(db.feed.value, db.response, best);
    if !IsSwan(db.calls[x], highest) {
      NoOtherSwan(db.calls, x, highest);
      return NoSwan;
    }
    if !enableSwan { return Refused; }
    OneFewer(db.calls, x);
    r := RespondToSwan(db, x);
  }

  /** Settles the position individually or the whole market at the position's own ratio. */
  method RespondToSwan(db: Ledger, x: Account) returns (r: SwanResult)
    requires Valid(db) && db.swan.None? && db.feed.Some? && x in db.calls
    modifies db
    ensures Valid(db) && forall b :: db.Net(b) == old(db.Net(b))
    ensures NoLess(old(db.balances), db.balances)
    ensures db.orders == old(db.orders) && db.settles == old(db.settles)
    ensures r == SettledOne || r == SettledAll
    ensures r == SettledAll <==> db.swan.Some?
    ensures r == SettledOne ==> && db.response == old(db.response) && SameFeed(old(db.feed), db.feed)
                                && db.TotalDebt() < old(db.TotalDebt()) && db.calls == old(db.calls) - {x}
                                && (db.response == SettleToFund || db.response == SettleToOrder)
                                && (db.response != SettleToFund ==> db.feed == old(db.feed))
  {
    hide Ledger.Net, Ledger.CoreGap;
    if db.response == SettleToFund || db.response == SettleToOrder {
      SettleOne(db, x);
      return SettledOne;
    }
    var own := Pair(db.calls[x].debt, db.calls[x].collateral);
    DebtIsPositive(db);
    GloballySettle(db, own, true);
    return SettledAll;
  }

  lemma OneFewer(before: map<Account, Position>, x: Account)
    requires x in before
    ensures |before - {x}| < |before| && Fewer(before - {x}, before)
  {
    assert (before - {x}).Keys == before.Keys - {x};
  }

  /** Every position can pay that price. */
  ghost predicate AllPay(calls: map<Account, Position>, highest: Price)
    requires forall y :: y in calls ==> Open(calls[y])
  {
    forall x :: x in calls ==> !IsSwan(calls[x], highest)
  }

  /** A position whose ratio was kept can pay whatever it could pay before. */
  lemma KeptCanPay(c: Position, covers: nat, pays: nat, price: Price)
    requires Open(c) && covers < c.debt && pays < c.collateral && RatioKept(c, covers, pays) && !IsSwan(c, price)
    ensures !IsSwan(c.(collateral := c.collateral - pays, debt := c.debt - covers), price)
  {
    RatioKeptMeaning(c, covers, pays);
    BelowAbove(Pair(c.debt - covers, c.collateral - pays), Pair(c.debt, c.collateral), price);
  }

  lemma AllStillPay(calls: map<Account, Position>, x: Account, pays: nat, covers: nat, price: Price)
    requires (forall y :: y in calls ==> Open(calls[y])) && x in calls && AllPay(calls, price)
    requires pays <= calls[x].collateral && covers <= calls[x].debt
    requires covers < calls[x].debt ==> pays < calls[x].collateral && RatioKept(calls[x], covers, pays)
    ensures (forall y :: y in CallsAfter(calls, x, pays, covers) ==> Open(CallsAfter(calls, x, pays, covers)[y]))
    ensures AllPay(CallsAfter(calls, x, pays, covers), price)
  {
    if covers < calls[x].debt { KeptCanPay(calls[x], covers, pays, price); }
  }

  /** The current price is no lower than what the cap for that position would be without rounding. */
  predicate CapReaches(f: Feed, c: Position)
    requires f.Valid() && Open(c)
  {
    AtMost(Reduce(c.debt * f.mssr, c.collateral * RATIO_DENOM), f.current)
  }

  /**
   * What capping the price is for.  Where the squeeze price is not rounded, the positions can pay it if and only
   * if the cap was not rounded down; none is then a black swan, whatever the best limit order, and without
   * settlement the market is not globally settled.
   */
  lemma CappedFeedHasNoSwan(f: Feed, calls: map<Account, Position>, best: Option<Price>)
    requires f.Valid() && (forall x :: x in calls ==> Open(calls[x])) && ScalesExactly(f.current, RATIO_DENOM, f.mssr)
    ensures AllPay(calls, f.SqueezePrice()) <==> forall x :: x in calls ==> CapReaches(f, calls[x])
    ensures AllPay(calls, f.SqueezePrice()) ==> AllPay(calls, Highest(f, NoSettlement, best))
  {
    hide Scale, AtMost, Less, ScalesExactly, PaidFor, Reduce;
    forall x | x in calls
      ensures !IsSwan(calls[x], f.SqueezePrice()) <==> CapReaches(f, calls[x])
      ensures !IsSwan(calls[x], f.SqueezePrice()) ==> !IsSwan(calls[x], Highest(f, NoSettlement, best))
    {
      CapIsPaid(f, calls[x]);
      if !IsSwan(calls[x], f.SqueezePrice()) { PaysMore(calls[x], f.SqueezePrice(), Highest(f, NoSettlement, best)); }
    }
  }

  lemma PaysMore(c: Position, price: Price, higher: Price)
    requires Open(c) && !IsSwan(c, price) && AtMost(price, higher)
    ensures !IsSwan(c, higher)
  {
    BelowAbove(Pair(c.debt, c.collateral), price, higher);
  }

  lemma CapIsPaid(f: Feed, c: Position)
    requires f.Valid() && Open(c) && ScalesExactly(f.current, RATIO_DENOM, f.mssr)
    ensures !IsSwan(c, f.SqueezePrice()) <==> CapReaches(f, c)
  {
    ScaleBackExactly(Pair(c.debt, c.collateral), f.current, f.mssr, RATIO_DENOM);
  }

  /** Updating the feed without settlement makes it reach where the product is not rounded. */
  lemma UpdatedFeedReaches(before: Feed, after: Feed, calls: map<Account, Position>, pool: Pool)
    requires (forall x :: x in calls ==> Open(calls[x])) && before.Valid() && (pool.debt > 0 ==> pool.fund > 0)
    requires FeedUpdated(Some(before), Some(after), NoSettlement, calls, pool)
    requires forall x :: x in calls && IsLeast(calls, x)
                         ==> ScalesExactly(Pair(calls[x].debt, calls[x].collateral), after.mssr, RATIO_DENOM)
    ensures forall x :: x in calls ==> CapReaches(after, calls[x])
  {
    hide Scale, Less, AtMost, Reduce;
    forall x | x in calls ensures CapReaches(after, calls[x]) {
      var y :| y in calls && IsLeast(calls, y)
               && after == Refreshed(before, NoSettlement, Some(calls[y]), pool.debt, pool.fund);
      RefreshedReaches(before, after, calls[y], pool.debt, pool.fund);
      OthersReachToo(after, calls, x, y);
    }
  }

  lemma RefreshedReaches(before: Feed, after: Feed, c: Position, poolDebt: nat, poolFund: nat)
    requires before.Valid() && Open(c) && (poolDebt > 0 ==> poolFund > 0)
    requires after == Refreshed(before, NoSettlement, Some(c), poolDebt, poolFund)
    requires ScalesExactly(Pair(c.debt, c.collateral), after.mssr, RATIO_DENOM)
    ensures CapReaches(after, c)
  {
    var own, derived := Pair(c.debt, c.collateral), DerivedPrice(before, NoSettlement, Some(c), poolDebt, poolFund);
    BelowAbove(Scale(own, after.mssr, RATIO_DENOM), derived, after.current);
  }

  lemma OthersReachToo(f: Feed, calls: map<Account, Position>, x: Account, y: Account)
    requires f.Valid() && (forall z :: z in calls ==> Open(calls[z])) && x in calls && IsLeast(calls, y) && CapReaches(f, calls[y])
    ensures CapReaches(f, calls[x])
  {
    var p, q := Pair(calls[x].debt, calls[x].collateral), Pair(calls[y].debt, calls[y].collateral);
    ReduceIsMonotone(p, q, f.mssr, RATIO_DENOM);
    BelowAbove(Reduce(p.base * f.mssr, p.quote * RATIO_DENOM), Reduce(q.base * f.mssr, q.quote * RATIO_DENOM), f.current);
  }

  /** The best order on a side, if there is any. */
  ghost predicate IsBestOption(orders: map<nat, LimitOrder>, sells: Asset, wants: Asset, best: Option<nat>) {
    if best.Some? then IsBest(orders, sells, wants, best.value)
    else !HasSide(orders, sells, wants)
  }

  lemma BestIsUnique(orders: map<nat, LimitOrder>, sells: Asset, wants: Asset, a: Option<nat>, b: Option<nat>)
    requires IsBestOption(orders, sells, wants, a) && IsBestOption(orders, sells, wants, b)
    ensures a == b
  {
    if a.Some? && b.Some? {
      assert NotBehind(orders, a.value, b.value) && NotBehind(orders, b.value, a.value);
    }
  }

  method BestLimit(orders: map<nat, LimitOrder>, sells: Asset, wants: Asset) returns (best: Option<nat>)
    ensures IsBestOption(orders, sells, wants, best)
  {
    if !HasSide(orders, sells, wants) { return None; }
    BestExists(orders, sells, wants);
    var id :| id in orders && IsBest(orders, sells, wants, id);
    best := Some(id);
  }

  /** No position left that cannot pay, judged by the best order selling the debt asset. */
  ghost predicate NoneUnder(db: Ledger, best: Option<nat>)
    requires CallsOpen(db) && db.feed.Some? && db.feed.value.Valid() && (best.Some? ==> best.value in db.orders)
    reads db`calls, db`feed, db`response, db`orders
  {
    AllPay(db.calls, Highest(db.feed.value, db.response, PriceOf(db.orders, best)))
  }

  /** Some position cannot pay, and there is no settle order that could be matched with it first. */
  ghost predicate SwanFound(db: Ledger, best: Option<nat>)
    requires CallsOpen(db) && db.feed.Some? && db.feed.value.Valid()
    reads db`orders, db`feed, db`settles, db`calls, db`response
  {
    IsBestOption(db.orders, db.p.mia, db.p.backing, best) && db.settles == map[] && !NoneUnder(db, best)
  }

  ghost predicate HasSwan(db: Ledger)
    requires CallsOpen(db) && db.feed.Some? && db.feed.value.Valid()
    reads db`orders, db`feed, db`settles, db`calls, db`response
  {
    exists best :: SwanFound(db, best)
  }

  lemma SwanIsHad(db: Ledger, best: Option<nat>)
    requires CallsOpen(db) && db.feed.Some? && db.feed.value.Valid() && SwanFound(db, best)
    ensures HasSwan(db)
  {
  }

  lemma SwanIsFound(db: Ledger, b: Option<nat>)
    requires CallsOpen(db) && db.feed.Some? && db.feed.value.Valid() && HasSwan(db)
    requires IsBestOption(db.orders, db.p.mia, db.p.backing, b)
    ensures SwanFound(db, b)
  {
    var best :| SwanFound(db, best);
    BestIsUnique(db.orders, db.p.mia, db.p.backing, best, b);
  }

  /** The market answers a black swan by settling globally, also if it is not meant to settle at all. */
  ghost predicate SettlesAll(db: Ledger)
    reads db`swan, db`feed, db`response
  {
    db.swan.None? && db.feed.Some? && (db.response == GlobalSettlement || db.response == NoSettlement)
  }

  /** What a check for black swans that did not end in global settlement may have changed. */
  ghost predicate SwanChecked(db: Ledger, calls: map<Account, Position>, feed: Option<Feed>, debt: int, settled: bool)
    reads db`calls, db`feed, db`response
  {
    && SameFeed(feed, db.feed) && (db.response != SettleToFund ==> db.feed == feed) && Fewer(db.calls, calls)
    && (settled ==> db.TotalDebt() < debt && (db.response == SettleToFund || db.response == SettleToOrder))
    && (!settled ==> db.calls == calls && db.feed == feed)
  }

  /**
   * Looks for positions that can no longer pay and settles them.  Without force
   * settlements, on return either the market is globally settled or no position is left
   * that cannot pay.
   */
  method CheckForBlackSwan(db: Ledger, enableSwan: bool, best: Option<nat>) returns (status: Status, settled: bool)
    requires Valid(db) && IsBestOption(db.orders, db.p.mia, db.p.backing, best)
    modifies db
    ensures Valid(db) && forall b :: db.Net(b) == old(db.Net(b))
    ensures NoLess(old(db.balances), db.balances)
    ensures status != Stuck
    ensures status == Rejected ==> !enableSwan && db.swan.None? && db.feed.Some? && SwanFound(db, best)
    ensures db.orders == old(db.orders) && db.settles == old(db.settles)
    ensures db.swan.None? ==> && old(db.swan.None?) && db.response == old(db.response)
                              && SwanChecked(db, old(db.calls), old(db.feed), old(db.TotalDebt()), settled)
    ensures db.swan.Some? ==> settled
    ensures status == Done && db.swan.None? && db.feed.Some? && db.settles == map[] ==> NoneUnder(db, best)
    ensures old(db.swan.None? && (db.feed.Some? && db.settles == map[] ==> NoneUnder(db, best))) ==> status == Done && !settled
    ensures enableSwan && old(SettlesAll(db) && SwanFound(db, best)) ==> db.swan.Some?
    ensures !enableSwan && old(db.swan.None?) ==> db.swan.None?
  {
    hide Ledger.Net, Ledger.CoreGap, Ledger.TotalDebt, Ledger.DebtGap;
    if db.swan.Some? { return Done, true; }
    if db.feed.None? || db.settles != map[] || db.calls == map[] {
      return Done, false;
    }
    status, settled := SettleSwans(db, enableSwan, best);
  }

  method SettleSwans(db: Ledger, enableSwan: bool, best: Option<nat>) returns (status: Status, settled: bool)
    requires Valid(db) && db.swan.None? && db.feed.Some? && db.calls != map[] && db.settles == map[]
    requires IsBestOption(db.orders, db.p.mia, db.p.backing, best)
    modifies db
    ensures Valid(db) && forall b :: db.Net(b) == old(db.Net(b))
    ensures NoLess(old(db.balances), db.balances)
    ensures status != Stuck
    ensures status == Rejected ==> !enableSwan && db.swan.None? && db.feed.Some? && SwanFound(db, best)
    ensures db.orders == old(db.orders) && db.settles == old(db.settles)
    ensures db.swan.None? ==> && db.response == old(db.response)
                              && SwanChecked(db, old(db.calls), old(db.feed), old(db.TotalDebt()), settled)
    ensures db.swan.Some? ==> settled
    ensures status == Done && db.swan.None? ==> NoneUnder(db, best)
    ensures old(NoneUnder(db, best)) ==> status == Done && !settled
    ensures !enableSwan ==> db.swan.None?
  {
    hide Ledger.Net, Ledger.CoreGap, Ledger.TotalDebt, Ledger.DebtGap;
    ghost var calls, feed, debt := db.calls, db.feed, db.TotalDebt();
    var bestPrice := PriceOf(db.orders, best);
    settled := false;
    while db.calls != map[]
      invariant Valid(db) && db.swan.None? && db.feed.Some?
      invariant forall b :: db.Net(b) == old(db.Net(b))
      invariant NoLess(old(db.balances), db.balances)
      invariant db.orders == old(db.orders) && db.settles == old(db.settles) && db.response == old(db.response)
      invariant SwanChecked(db, calls, feed, debt, settled)
      invariant old(NoneUnder(db, best)) ==> !settled
      decreases |db.calls|
    {
      var r := SwanStep(db, enableSwan, bestPrice);
      match r
      case NoSwan => return Done, settled;
      case Refused => return Rejected, settled;
      case SettledAll => return Done, true;
      case SettledOne => settled := true;
    }
    return Done, settled;
  }

  lemma NoOtherSwan(calls: map<Account, Position>, x: Account, highest: Price)
    requires forall y :: y in calls ==> Open(calls[y])
    requires IsLeast(calls, x) && !IsSwan(calls[x], highest)
    ensures AllPay(calls, highest)
  {
    forall y | y in calls ensures !IsSwan(calls[y], highest) {
      BelowAbove(Pair(calls[y].debt, calls[y].collateral), Pair(calls[x].debt, calls[x].collateral), highest);
    }
  }

  // Matching called positions

  datatype CallResult = Matched | Undercollateralized | NothingToCover

  /** The state of the market as far as margin calls are concerned, after part of a position has been covered. */
  ghost predicate Progressed(db: Ledger, calls: map<Account, Position>, feed: Option<Feed>, response: Response, debt: int)
    reads db
  {
    && db.swan.None? && db.response == response && SameFeed(feed, db.feed)
    && db.TotalDebt() < debt && SameTargets(calls, db.calls)
  }

  /** No new positions, and the owners' targets are the same. */
  ghost predicate SameTargets(before: map<Account, Position>, after: map<Account, Position>) {
    forall x :: x in after ==> x in before && after[x].targetRatio == before[x].targetRatio
  }

  /** The amounts of a match with a limit order, unless the position cannot pay them or would end with a lower ratio. */
  function LimitFill(c: Position, forSale: nat, toBuy: nat, matchPrice: Price, paysPrice: Price): (r: Option<CallFill>)
    requires Open(c) && toBuy > 0 && LimitAffordable(c, paysPrice, toBuy) && AtMost(paysPrice, matchPrice)
    requires ToQuote(forSale, matchPrice) > 0
    ensures r.Some? ==>
              && r.value.CallFill? && 0 < r.value.covers <= forSale && r.value.covers <= c.debt
              && 0 < r.value.limitReceives <= r.value.callPays <= c.collateral
              && (r.value.covers < c.debt ==> r.value.callPays < c.collateral)
              && (toBuy > forSale ==> RatioKept(c, r.value.covers, r.value.callPays)
                                      && ToQuote(forSale - r.value.covers, matchPrice) == 0)
    ensures r.None? ==> Less(paysPrice, Pair(c.debt, c.collateral))
  {
    QuoteCallSound(forSale, toBuy, matchPrice, paysPrice);
    var fill := QuoteCall(forSale, toBuy, matchPrice, paysPrice);
    if toBuy > forSale then
      if fill.callPays >= c.collateral || !RatioKept(c, fill.covers, fill.callPays) then
        LoweringMeansPoor(c, paysPrice, fill.covers);
        None
      else Some(fill)
    else if fill.callPays > c.collateral then
      TooExpensive(c, paysPrice);
      None
    else Some(fill)
  }

  /** Matches a called position with a limit order on the book, at that order's price. */
  method MatchWithLimit(db: Ledger, x: Account, limit: nat) returns (r: CallResult)
    requires Valid(db) && NoDust(db) && db.swan.None? && db.feed.Some? && x in db.calls && Called(db.feed.value, db.calls[x])
    requires limit in db.orders && OnSide(db.orders[limit], db.p.mia, db.p.backing)
    modifies db
    ensures Valid(db) && NoDust(db) && forall b :: db.Net(b) == old(db.Net(b))
    ensures NoLess(old(db.balances), db.balances)
    ensures db.settles == old(db.settles)
    ensures r == Matched ==> Progressed(db, old(db.calls), old(db.feed), old(db.response), old(db.TotalDebt()))
    ensures db.feed == old(db.feed)
    ensures r != Matched ==> db.calls == old(db.calls) && db.orders == old(db.orders) && db.feed == old(db.feed)
                             && db.swan == old(db.swan) && db.response == old(db.response)
    ensures r == NothingToCover
            <==> old(CoversNone(db.feed.value, db.calls[x], PaidFor(db.feed.value, db.orders[limit].price)))
    ensures r == Undercollateralized
            ==> IsSwan(db.calls[x], PaidFor(db.feed.value, db.orders[limit].price))
  {
    hide Ledger.Net, Ledger.CoreGap, Ledger.TotalDebt, Ledger.DebtGap, NoLess, Credited, Ledger.MarketFee, Ledger.SettleProceeds;
    SameIsNoLess(db.balances);
    var quote, fill := QuoteWithLimit(db.feed.value, db.calls[x], db.orders[limit]);
    r := quote;
    if r == Matched {
      var limitFilled, callFilled := FillLimitAndCall(db, limit, x, fill, true, true);
    }
  }

  method QuoteWithLimit(f: Feed, c: Position, o: LimitOrder) returns (r: CallResult, fill: CallFill)
    requires f.Valid() && Open(c) && Called(f, c) && o.ToReceive() > 0
    ensures r == Matched ==> && fill.CallFill? && 0 < fill.covers <= o.forSale && fill.covers <= c.debt
                             && fill.limitReceives <= fill.callPays <= c.collateral
                             && (fill.covers < c.debt ==> fill.callPays < c.collateral)
    ensures r == NothingToCover <==> CoversNone(f, c, PaidFor(f, o.price))
    ensures r == Undercollateralized ==> IsSwan(c, PaidFor(f, o.price))
  {
    fill := NoFill;
    var paysPrice := PaidFor(f, o.price);
    ScaleKeepsSide(o.price, f.CallNumerator(), f.mssr);
    var toBuy := CoverLimit(f, c, paysPrice);
    if toBuy == 0 { return NothingToCover, fill; }
    var quoted := LimitFill(c, o.forSale, toBuy, o.price, paysPrice);
    if quoted.None? { return Undercollateralized, fill; }
    return Matched, quoted.value;
  }

  /**
   * How a match of a called position with a settle order ends.  `NoLimit`: nothing is to
   * be covered.
   */
  datatype SettleResult = Covers | OrderGone | NoLimit

  /** Matches a called position with a settle order, at the squeeze price or the position's own ratio. */
  method MatchWithSettle(db: Ledger, x: Account, id: nat, limit: nat, matchPrice: Price, fillPrice: Price, settleIsTaker: bool)
    returns (r: SettleResult)
    requires Valid(db) && db.swan.None? && db.feed.Some? && x in db.calls && id in db.settles
    requires limit > 0 && LimitAffordable(db.calls[x], matchPrice, limit) && AtMost(matchPrice, fillPrice)
    modifies db
    ensures Valid(db) && forall b :: db.Net(b) == old(db.Net(b))
    ensures NoLess(old(db.balances), db.balances)
    ensures db.orders == old(db.orders) && db.feed == old(db.feed)
    ensures r != NoLimit
    ensures r == Covers ==> Progressed(db, old(db.calls), old(db.feed), old(db.response), old(db.TotalDebt()))
    ensures r == Covers && id in db.settles ==> db.settles[id].balance < old(db.settles[id].balance)
    ensures r != Covers ==> db.settles == (if r == OrderGone then old(db.settles) - {id} else old(db.settles))
                            && db.calls == old(db.calls) && db.swan == old(db.swan) && db.response == old(db.response)
  {
    hide Ledger.Net, Ledger.CoreGap, Ledger.TotalDebt, Ledger.DebtGap, NoLess, Credited, Ledger.MarketFee, Ledger.SettleProceeds, AtMost;
    SameIsNoLess(db.balances);
    var f := db.feed.value;
    var o := MatchMarginCall(Request(db.calls[x], db.settles[id].balance, limit, matchPrice, fillPrice,
                                     f.CallNumerator(), f.mssr, true));
    if o.SettleCancelled? {
      CancelSettle(db, id);
      return OrderGone;
    }
    FillSettleAndCall(db, id, x, o, true, settleIsTaker);
    r := Covers;
  }

  /** The market as far as margin calls are concerned: a settle order may have gone, nothing else changed. */
  ghost predicate OnlySettlesGone(db: Ledger, calls: map<Account, Position>, feed: Option<Feed>, response: Response)
    reads db
  {
    db.swan.None? && db.calls == calls && db.feed == feed && db.response == response
  }

  /** All least collateralized positions are called, or none is. */
  lemma LeastCalledAlike(f: Feed, calls: map<Account, Position>, x: Account, y: Account)
    requires f.Valid() && forall z :: z in calls ==> Open(calls[z])
    requires IsLeast(calls, x) && y in calls && Called(f, calls[y])
    ensures Called(f, calls[x])
  {
    BelowAbove(Collateralization(calls[x]), Collateralization(calls[y]), f.Maintenance());
  }

  /** Nothing of some least collateralized position is to be covered at that price. */
  ghost predicate StuckAt(f: Feed, calls: map<Account, Position>, paysPrice: Price)
    requires f.Valid() && forall x :: x in calls ==> Open(calls[x])
  {
    exists x :: x in calls && IsLeast(calls, x) && CoversNone(f, calls[x], paysPrice)
  }

  /** Nor of any other as little collateralized as that. */
  ghost predicate AllStuckAt(f: Feed, calls: map<Account, Position>, paysPrice: Price)
    requires f.Valid() && forall x :: x in calls ==> Open(calls[x])
  {
    calls != map[] && forall x :: x in calls && IsLeast(calls, x) ==> CoversNone(f, calls[x], paysPrice)
  }

  lemma AllStuckIsCalled(f: Feed, calls: map<Account, Position>, x: Account, paysPrice: Price)
    requires f.Valid() && (forall y :: y in calls ==> Open(calls[y])) && IsLeast(calls, x) && AllStuckAt(f, calls, paysPrice)
    ensures Called(f, calls[x]) && CoversNone(f, calls[x], paysPrice)
  {
  }

  /**
   * Matches called positions, least collateralized first, with settle orders until one
   * match is made.  Without a match every settle order was too small and is gone.
   */
  method MatchForceSettlements(db: Ledger) returns (status: Status, matched: bool)
    requires Valid(db) && db.swan.None? && db.feed.Some?
    requires exists x :: x in db.calls && Called(db.feed.value, db.calls[x])
    modifies db
    ensures Valid(db) && forall b :: db.Net(b) == old(db.Net(b))
    ensures NoLess(old(db.balances), db.balances)
    ensures db.orders == old(db.orders)
    ensures status == Done && matched ==> Progressed(db, old(db.calls), old(db.feed), old(db.response), old(db.TotalDebt()))
    ensures db.response != NoSettlement ==> db.feed == old(db.feed)
    ensures status != Done || !matched ==> OnlySettlesGone(db, old(db.calls), old(db.feed), old(db.response))
    ensures status == Done && !matched ==> db.settles == map[]
    ensures status != Rejected
    ensures status == Stuck ==> db.settles != map[] && StuckAt(db.feed.value, db.calls, db.feed.value.SqueezePrice())
    ensures old(db.settles != map[] && AllStuckAt(db.feed.value, db.calls, db.feed.value.SqueezePrice())) ==> status == Stuck
  {
    hide Ledger.Net, Ledger.CoreGap, Ledger.TotalDebt, Ledger.DebtGap, Solvent, PoolValid, OrdersValid, SettlesValid, BidsValid, CoreExact, AtMost, SameTargets, CoversNone;
    ghost var called :| called in db.calls && Called(db.feed.value, db.calls[called]);
    var f := db.feed.value;
    f.FeeIsNotNegative();
    while db.settles != map[]
      invariant Valid(db) && OnlySettlesGone(db, old(db.calls), old(db.feed), old(db.response))
      invariant db.settles == old(db.settles) || !old(AllStuckAt(db.feed.value, db.calls, db.feed.value.SqueezePrice()))
      invariant forall b :: db.Net(b) == old(db.Net(b))
      invariant NoLess(old(db.balances), db.balances)
      invariant db.orders == old(db.orders)
      decreases |db.settles|
    {
      FirstExists(db.settles);
      var id :| id in db.settles && IsFirst(db.settles, id);
      LeastExists(db.calls);
      var x :| x in db.calls && IsLeast(db.calls, x);
      LeastCalledAlike(f, db.calls, x, called);
      ghost var before := db.settles;
      var r := CoverFromSettle(db, x, id, f.SqueezePrice(), f.CallOrderPrice(), false);
      if r == NoLimit { return Stuck, false; }
      if r == Covers { return Done, true; }
      assert db.settles.Keys == before.Keys - {id};
    }
    return Done, false;
  }

  /** One position and one settle order. */
  method CoverFromSettle(db: Ledger, x: Account, id: nat, paysPrice: Price, matchPrice: Price, settleIsTaker: bool)
    returns (r: SettleResult)
    requires Valid(db) && db.swan.None? && db.feed.Some? && x in db.calls && id in db.settles
    requires Called(db.feed.value, db.calls[x]) && AtMost(paysPrice, matchPrice)
    modifies db
    ensures Valid(db) && forall b :: db.Net(b) == old(db.Net(b))
    ensures NoLess(old(db.balances), db.balances)
    ensures db.orders == old(db.orders)
    ensures r == Covers ==> Progressed(db, old(db.calls), old(db.feed), old(db.response), old(db.TotalDebt()))
    ensures r == Covers && id in db.settles ==> db.settles[id].balance < old(db.settles[id].balance)
    ensures db.response != NoSettlement ==> db.feed == old(db.feed)
    ensures r != Covers ==> OnlySettlesGone(db, old(db.calls), old(db.feed), old(db.response))
                            && db.settles == if r == OrderGone then old(db.settles) - {id} else old(db.settles)
    ensures r == NoLimit <==> old(CoversNone(db.feed.value, db.calls[x], paysPrice))
  {
    hide Ledger.Net, Ledger.CoreGap, Ledger.TotalDebt, Ledger.DebtGap, NoLess, Credited, Ledger.MarketFee, Ledger.SettleProceeds,
         Solvent, SettlesValid, OrdersValid, CoreExact, Scale, AtMost, Less;
    SameIsNoLess(db.balances);
    var limit := CoverLimit(db.feed.value, db.calls[x], paysPrice);
    if limit == 0 { return NoLimit; }
    r := MatchWithSettle(db, x, id, limit, paysPrice, matchPrice, settleIsTaker);
    if r == Covers && db.response == NoSettlement {
      UpdateCurrentFeed(db);
    }
  }

  /** No new limit orders, and those left keep side and price. */
  ghost predicate FewerOrders(after: map<nat, LimitOrder>, before: map<nat, LimitOrder>) {
    forall id :: id in after ==> id in before && SameTerms(before[id], after[id])
  }

  /** The order selling the settled debt meets no limit order at or above its price. */
  ghost predicate DebtOrderQuiet(db: Ledger)
    reads db`debtOrder, db`orders
  {
    db.debtOrder.Some? ==>
      forall id :: id in db.orders && OnSide(db.orders[id], db.p.mia, db.p.backing)
                   ==> !AtMost(Inverse(db.orders[id].price), db.debtOrder.value.price)
  }

  /** Sells the settled debt to the limit orders that meet its price. */
  method CheckSettledDebtOrder(db: Ledger)
    requires Valid(db) && NoDust(db)
    modifies db
    ensures Valid(db) && NoDust(db) && forall b :: db.Net(b) == old(db.Net(b))
    ensures NoLess(old(db.balances), db.balances)
    ensures DebtOrderQuiet(db) && FewerOrders(db.orders, old(db.orders))
    ensures db.calls == old(db.calls) && db.settles == old(db.settles)
    ensures db.swan == old(db.swan) && db.response == old(db.response) && db.feed == old(db.feed)
  {
    hide Ledger.Net, Ledger.CoreGap, Ledger.TotalDebt, Ledger.DebtGap, Solvent, PoolValid, CallsOpen, OrdersValid, SettlesValid, BidsValid, FeedValid,
         CoreExact;
    while db.debtOrder.Some? && HasSide(db.orders, db.p.mia, db.p.backing)
      invariant Valid(db) && NoDust(db) && FewerOrders(db.orders, old(db.orders))
      invariant forall b :: db.Net(b) == old(db.Net(b))
      invariant NoLess(old(db.balances), db.balances)
      invariant db.calls == old(db.calls) && db.settles == old(db.settles)
      invariant db.swan == old(db.swan) && db.response == old(db.response) && db.feed == old(db.feed)
      decreases db.pool.debt
    {
      BestExists(db.orders, db.p.mia, db.p.backing);
      var id :| id in db.orders && IsBest(db.orders, db.p.mia, db.p.backing, id);
      if !AtMost(Inverse(db.orders[id].price), db.debtOrder.value.price) {
        BelowBest(db.orders, db.p.mia, db.p.backing, id, Inverse(db.debtOrder.value.price));
        return;
      }
      SellDebt(db, id);
    }
  }

  /** Sells settled debt to one limit order. */
  method SellDebt(db: Ledger, id: nat)
    requires Valid(db) && NoDust(db) && db.debtOrder.Some? && id in db.orders && OnSide(db.orders[id], db.p.mia, db.p.backing)
    requires AtMost(Inverse(db.orders[id].price), db.debtOrder.value.price)
    modifies db
    ensures Valid(db) && NoDust(db) && forall b :: db.Net(b) == old(db.Net(b))
    ensures NoLess(old(db.balances), db.balances)
    ensures FewerOrders(db.orders, old(db.orders)) && db.pool.debt < old(db.pool.debt)
    ensures db.calls == old(db.calls) && db.settles == old(db.settles)
    ensures db.swan == old(db.swan) && db.response == old(db.response) && db.feed == old(db.feed)
  {
    hide Ledger.Net, Ledger.CoreGap, Ledger.TotalDebt, Ledger.DebtGap, Solvent, PoolValid, CallsOpen, OrdersValid, SettlesValid, BidsValid, FeedValid,
         CoreExact, AtMost, NoLess;
    var makerGone, orderGone := MatchDebtOrderWithLimit(db, id);
  }

  /** If the best order of a side is below a price, so are all. */
  lemma BelowBest(orders: map<nat, LimitOrder>, sells: Asset, wants: Asset, best: nat, p: Price)
    requires IsBest(orders, sells, wants, best) && !AtMost(p, orders[best].price)
    ensures forall id :: id in orders && OnSide(orders[id], sells, wants) ==> !AtMost(p, orders[id].price)
  {
    forall id | id in orders && OnSide(orders[id], sells, wants) ensures !AtMost(p, orders[id].price) {
      if AtMost(p, orders[id].price) { BelowAbove(p, orders[id].price, orders[best].price); }
    }
  }

  // The loop

  /** What one pass led to: go on, stop because no position is called, stop because nothing matches, or fail. */
  datatype PassResult = Again | Protected | Blocked | Failed(status: Status)

  /** A pass made progress: some debt was covered or settled, or settle orders too small to match are gone. */
  ghost predicate Advanced(db: Ledger, calls: map<Account, Position>, feed: Option<Feed>, response: Response, debt: int,
                           settles: nat)
    reads db
  {
    && db.swan.None? && db.response == response && SameFeed(feed, db.feed) && SameTargets(calls, db.calls)
    && (db.TotalDebt() < debt || (db.TotalDebt() == debt && |db.settles| < settles))
  }

  ghost predicate NoneCalled(f: Feed, calls: map<Account, Position>)
    requires f.Valid() && forall x :: x in calls ==> Open(calls[x])
  {
    forall x :: x in calls ==> !Called(f, calls[x])
  }

  /** If the least collateralized position is not called, none is. */
  lemma NoOtherCalled(f: Feed, calls: map<Account, Position>, x: Account)
    requires f.Valid() && (forall z :: z in calls ==> Open(calls[z])) && IsLeast(calls, x) && !Called(f, calls[x])
    ensures NoneCalled(f, calls)
  {
    forall y | y in calls ensures !Called(f, calls[y]) {
      if Called(f, calls[y]) { LeastCalledAlike(f, calls, x, y); }
    }
  }

  /** No limit order buys collateral at `minPrice` or better for the position. */
  ghost predicate NoCross(orders: map<nat, LimitOrder>, mia: Asset, backing: Asset, minPrice: Price) {
    forall id :: id in orders && OnSide(orders[id], mia, backing) ==> !AtMost(minPrice, orders[id].price)
  }

  /** Some position cannot pay what the best limit order asks for. */
  ghost predicate CannotPay(f: Feed, calls: map<Account, Position>, limitPrice: Price)
    requires f.Valid() && forall x :: x in calls ==> Open(calls[x])
  {
    exists x :: x in calls && IsSwan(calls[x], PaidFor(f, limitPrice))
  }

  method MatchLimitStep(db: Ledger, x: Account, limit: nat, updateFeed: bool) returns (r: CallResult)
    requires Valid(db) && NoDust(db) && db.swan.None? && db.feed.Some? && x in db.calls && Called(db.feed.value, db.calls[x])
    requires limit in db.orders && OnSide(db.orders[limit], db.p.mia, db.p.backing)
    modifies db
    ensures Valid(db) && NoDust(db) && forall b :: db.Net(b) == old(db.Net(b))
    ensures NoLess(old(db.balances), db.balances)
    ensures db.settles == old(db.settles)
    ensures r == Matched ==> Advanced(db, old(db.calls), old(db.feed), old(db.response), old(db.TotalDebt()), old(|db.settles|))
    ensures r == Matched && !updateFeed ==> db.feed == old(db.feed)
    ensures r != Matched ==> OnlySettlesGone(db, old(db.calls), old(db.feed), old(db.response)) && db.orders == old(db.orders)
    ensures r == NothingToCover
            <==> old(CoversNone(db.feed.value, db.calls[x], PaidFor(db.feed.value, db.orders[limit].price)))
    ensures r == Undercollateralized ==> CannotPay(db.feed.value, db.calls, db.orders[limit].price)
  {
    hide Ledger.Net, Ledger.CoreGap, Ledger.TotalDebt, Ledger.DebtGap, NoLess, Credited, Ledger.MarketFee, Ledger.SettleProceeds;
    SameIsNoLess(db.balances);
    r := MatchWithLimit(db, x, limit);
    if r == Matched && updateFeed {
      UpdateCurrentFeed(db);
    }
  }

  method MatchSettleStep(db: Ledger) returns (r: PassResult, matched: bool)
    requires Valid(db) && db.swan.None? && db.feed.Some? && db.settles != map[]
    requires exists x :: x in db.calls && Called(db.feed.value, db.calls[x])
    modifies db
    ensures Valid(db) && forall b :: db.Net(b) == old(db.Net(b))
    ensures NoLess(old(db.balances), db.balances)
    ensures db.orders == old(db.orders)
    ensures r == Again || r.Failed?
    ensures r == Again ==> Advanced(db, old(db.calls), old(db.feed), old(db.response), old(db.TotalDebt()), old(|db.settles|))
    ensures r == Again && db.response != NoSettlement ==> db.feed == old(db.feed)
    ensures r != Again ==> OnlySettlesGone(db, old(db.calls), old(db.feed), old(db.response))
    ensures !matched ==> db.calls == old(db.calls)
    ensures r.Failed? ==> r.status == Stuck && db.settles != map[] && StuckAt(db.feed.value, db.calls, db.feed.value.SqueezePrice())
    ensures old(AllStuckAt(db.feed.value, db.calls, db.feed.value.SqueezePrice())) ==> r == Failed(Stuck)
  {
    hide Ledger.Net, Ledger.CoreGap, Ledger.TotalDebt, Ledger.DebtGap;
    var status;
    status, matched := MatchForceSettlements(db);
    r := if status == Done then Again else Failed(status);
  }

  /**
   * Where margin calls are stuck: at the price of the best limit order, if that meets them, or
   * at the squeeze price with a settle order to match.
   */
  ghost predicate StuckOn(db: Ledger, best: Option<nat>, minPrice: Price, skipSettles: bool)
    requires CallsOpen(db) && db.feed.Some? && db.feed.value.Valid()
    reads db`orders, db`feed, db`settles, db`calls
  {
    && IsBestOption(db.orders, db.p.mia, db.p.backing, best)
    && (|| (&& best.Some? && AtMost(minPrice, db.orders[best.value].price)
            && StuckAt(db.feed.value, db.calls, PaidFor(db.feed.value, db.orders[best.value].price)))
        || (!skipSettles && db.settles != map[] && StuckAt(db.feed.value, db.calls, db.feed.value.SqueezePrice())))
  }

  /** From there they do not get on, whichever of the least collateralized positions is looked at. */
  ghost predicate SticksOn(db: Ledger, best: Option<nat>, minPrice: Price, skipSettles: bool)
    requires CallsOpen(db) && db.feed.Some? && db.feed.value.Valid()
    reads db`orders, db`feed, db`settles, db`calls
  {
    && IsBestOption(db.orders, db.p.mia, db.p.backing, best)
    && (if best.Some? && AtMost(minPrice, db.orders[best.value].price)
        then AllStuckAt(db.feed.value, db.calls, PaidFor(db.feed.value, db.orders[best.value].price))
        else !skipSettles && db.settles != map[] && AllStuckAt(db.feed.value, db.calls, db.feed.value.SqueezePrice()))
  }

  /** Tries to match the least collateralized position, with the best limit order first and then with settle orders. */
  method MatchLeast(db: Ledger, best: Option<nat>, minPrice: Price, skipSettles: bool, updateFeed: bool)
    returns (r: PassResult, tried: bool)
    requires Valid(db) && NoDust(db) && db.swan.None? && db.feed.Some? && db.calls != map[]
    requires IsBestOption(db.orders, db.p.mia, db.p.backing, best)
    modifies db
    ensures Valid(db) && NoDust(db) && forall b :: db.Net(b) == old(db.Net(b))
    ensures NoLess(old(db.balances), db.balances)
    ensures r == Again ==> Advanced(db, old(db.calls), old(db.feed), old(db.response), old(db.TotalDebt()), old(|db.settles|))
    ensures r == Again && db.response != NoSettlement && !updateFeed ==> db.feed == old(db.feed)
    ensures r != Again ==> OnlySettlesGone(db, old(db.calls), old(db.feed), old(db.response)) && db.orders == old(db.orders)
    ensures !tried ==> db.calls == old(db.calls)
    ensures r == Protected ==> NoneCalled(db.feed.value, db.calls)
    ensures r == Blocked ==> db.settles == old(db.settles) && (skipSettles || db.settles == map[])
    ensures r == Blocked ==> NoCross(db.orders, db.p.mia, db.p.backing, minPrice)
                             || (best.Some? && CannotPay(db.feed.value, db.calls, db.orders[best.value].price))
    ensures r.Failed? ==> r.status == Stuck && StuckOn(db, best, minPrice, skipSettles)
    ensures old(SticksOn(db, best, minPrice, skipSettles)) ==> r == Failed(Stuck)
    ensures skipSettles ==> db.settles == old(db.settles)
  {
    hide Ledger.Net, Ledger.CoreGap, Ledger.TotalDebt, Ledger.DebtGap;
    tried := false;
    LeastExists(db.calls);
    var x :| x in db.calls && IsLeast(db.calls, x);
    if !Called(db.feed.value, db.calls[x]) {
      NoOtherCalled(db.feed.value, db.calls, x);
      return Protected, false;
    }
    if best.Some? && AtMost(minPrice, db.orders[best.value].price) {
      tried := true;
      var m := MatchLimitStep(db, x, best.value, updateFeed);
      if m == Matched { return Again, true; }
      if m == NothingToCover { return Failed(Stuck), true; }
    } else if best.Some? {
      BelowBest(db.orders, db.p.mia, db.p.backing, best.value, minPrice);
    }
    if skipSettles || db.settles == map[] { return Blocked, tried; }
    var matched;
    r, matched := MatchSettleStep(db);
    tried := tried || matched;
  }

  /** One pass after another: the measure (debt, settle orders) falls and everything fixed stays fixed. */
  lemma StillExact(before: Option<Feed>, after: Option<Feed>, calls: map<Account, Position>, calls': map<Account, Position>)
    requires before.Some? ==> before.value.Valid()
    requires after.Some? ==> after.value.Valid()
    requires SameFeed(before, after) && SameTargets(calls, calls') && AllExact(before, calls)
    ensures AllExact(after, calls')
  {
  }

  /** One pass: look for black swans, then try to match the least collateralized position. */
  method CallPass(db: Ledger, enableSwan: bool, skipSettles: bool, minPrice: Price, updateFeed: bool)
    returns (r: PassResult, called: bool, newMin: Price, ghost best: Option<nat>)
    requires Valid(db) && NoDust(db) && db.swan.None? && db.feed.Some? && db.calls != map[]
    requires db.response != NoSettlement ==> minPrice == db.feed.value.CallOrderPrice() && !updateFeed
    modifies db
    ensures Valid(db) && NoDust(db) && forall b :: db.Net(b) == old(db.Net(b))
    ensures NoLess(old(db.balances), db.balances)
    ensures db.swan.None? ==> db.response == old(db.response) && SameFeed(old(db.feed), db.feed) && SameTargets(old(db.calls), db.calls)
    ensures db.swan.None? && !called ==> db.calls == old(db.calls)
    ensures db.swan.None? && db.response != NoSettlement ==> newMin == db.feed.value.CallOrderPrice()
    ensures r == Again ==> db.swan.Some? || db.TotalDebt() < old(db.TotalDebt())
                           || (db.TotalDebt() == old(db.TotalDebt()) && |db.settles| < old(|db.settles|))
    ensures r == Protected ==> db.swan.None? && NoneCalled(db.feed.value, db.calls)
    ensures r == Blocked ==> db.swan.None? && IsBlocked(db, best, newMin, skipSettles)
    ensures r.Failed? ==> db.swan.None? && r.status != Done && FailedRightly(db, r.status, enableSwan, newMin, skipSettles)
    ensures old(Sticks(db, minPrice, skipSettles)) ==> r == Failed(Stuck) && db.swan.None?
    ensures !enableSwan ==> db.swan.None?
    ensures skipSettles ==> db.settles == old(db.settles)
    ensures db.swan.None? && db.response == NoSettlement ==> newMin == minPrice && (r != Again ==> db.feed == old(db.feed))
  {
    hide Ledger.Net, Ledger.CoreGap, AtMost, Less, Scale, Highest, IsSwan, CoversNone, Called, Feed.CallOrderPrice, Feed.SqueezePrice, IsBestOption,
         SameTargets, Fewer, StuckOn, SticksOn, AllPay, IsBlocked, PoolValid, Solvent, CoreExact, OrdersValid,
         SettlesValid, Ledger.TotalDebt, Ledger.DebtGap, NoDust, NoneUnder;
    ghost var calls := db.calls;
    var b := BestLimit(db.orders, db.p.mia, db.p.backing);
    best := b;
    var status;
    status, called, newMin := SwanPart(db, enableSwan, b, minPrice);
    if db.swan.Some? { return Again, true, newMin, best; }
    if status == Rejected {
      assert SwanFound(db, best);
      return Failed(Rejected), called, newMin, best;
    }
    if db.calls == map[] { return Protected, called, newMin, best; }
    ghost var between := db.calls;
    var tried;
    r, tried := MatchAfterSwan(db, b, newMin, skipSettles, updateFeed);
    TargetsChain(calls, between, db.calls);
    called := called || tried;
  }

  /** The first half of a pass. */
  method SwanPart(db: Ledger, enableSwan: bool, best: Option<nat>, minPrice: Price)
    returns (status: Status, settled: bool, newMin: Price)
    requires Valid(db) && NoDust(db) && db.swan.None? && db.feed.Some?
    requires IsBestOption(db.orders, db.p.mia, db.p.backing, best)
    requires db.response != NoSettlement ==> minPrice == db.feed.value.CallOrderPrice()
    modifies db
    ensures Valid(db) && NoDust(db) && forall b :: db.Net(b) == old(db.Net(b))
    ensures NoLess(old(db.balances), db.balances)
    ensures db.orders == old(db.orders) && db.settles == old(db.settles)
    ensures status == Done || (status == Rejected && !enableSwan && db.swan.None? && db.feed.Some? && SwanFound(db, best))
    ensures db.swan.None? ==> db.response == old(db.response) && SameFeed(old(db.feed), db.feed) && SameTargets(old(db.calls), db.calls)
    ensures db.swan.None? && !settled ==> db.calls == old(db.calls) && db.feed == old(db.feed)
    ensures old(db.settles == map[] ==> NoneUnder(db, best)) ==> status == Done && !settled && db.swan.None?
    ensures db.swan.None? && settled ==> db.TotalDebt() < old(db.TotalDebt())
    ensures db.swan.None? && db.response != NoSettlement ==> newMin == db.feed.value.CallOrderPrice()
    ensures status == Done && db.swan.None? && db.settles == map[] ==> NoneUnder(db, best)
    ensures !enableSwan ==> db.swan.None?
    ensures db.swan.None? && db.response == NoSettlement ==> newMin == minPrice && db.feed == old(db.feed)
  {
    hide Ledger.Net, Ledger.CoreGap, Ledger.TotalDebt, Ledger.DebtGap, AtMost, Less, Scale, Highest, IsSwan, Feed.CallOrderPrice, Feed.SqueezePrice, IsBest;
    newMin := minPrice;
    status, settled := CheckForBlackSwan(db, enableSwan, best);
    if db.swan.None? && settled && db.response == SettleToFund {
      newMin := db.feed.value.CallOrderPrice();
    }
  }

  lemma FeedsChain(a: Option<Feed>, b: Option<Feed>, c: Option<Feed>)
    ensures SameFeed(a, a)
    ensures SameFeed(a, b) && SameFeed(b, c) ==> SameFeed(a, c)
  {
  }

  lemma TargetsChain(a: map<Account, Position>, b: map<Account, Position>, c: map<Account, Position>)
    ensures SameTargets(a, a)
    ensures SameTargets(a, b) && SameTargets(b, c) ==> SameTargets(a, c)
  {
  }

  /** `MatchLeast` once no position is left that cannot pay, unless there are settle orders to match first. */
  method MatchAfterSwan(db: Ledger, best: Option<nat>, minPrice: Price, skipSettles: bool, updateFeed: bool)
    returns (r: PassResult, tried: bool)
    requires Valid(db) && NoDust(db) && db.swan.None? && db.feed.Some? && db.calls != map[]
    requires IsBestOption(db.orders, db.p.mia, db.p.backing, best) && (db.settles == map[] ==> NoneUnder(db, best))
    requires db.response != NoSettlement ==> !updateFeed
    modifies db
    ensures Valid(db) && NoDust(db) && forall b :: db.Net(b) == old(db.Net(b))
    ensures NoLess(old(db.balances), db.balances)
    ensures db.swan.None? && db.response == old(db.response) && SameFeed(old(db.feed), db.feed) && SameTargets(old(db.calls), db.calls)
    ensures db.response != NoSettlement ==> db.feed == old(db.feed)
    ensures !tried ==> db.calls == old(db.calls)
    ensures r == Again ==> db.TotalDebt() < old(db.TotalDebt())
                           || (db.TotalDebt() == old(db.TotalDebt()) && |db.settles| < old(|db.settles|))
    ensures r == Protected ==> NoneCalled(db.feed.value, db.calls)
    ensures r == Blocked ==> IsBlocked(db, best, minPrice, skipSettles)
    ensures r.Failed? ==> r.status == Stuck && StuckOn(db, best, minPrice, skipSettles)
    ensures old(SticksOn(db, best, minPrice, skipSettles)) ==> r == Failed(Stuck)
    ensures skipSettles ==> db.settles == old(db.settles)
    ensures r != Again ==> db.feed == old(db.feed)
  {
    hide Ledger.Net, Ledger.CoreGap, Ledger.TotalDebt, Ledger.DebtGap, AtMost, Less, Scale, Highest, IsSwan, CoversNone, Called, Feed.CallOrderPrice, Feed.SqueezePrice, StuckOn, SticksOn;
    r, tried := MatchLeast(db, best, minPrice, skipSettles, updateFeed);
    if r == Blocked && db.settles == map[] && best.Some? {
      OnlyRounding(db.feed.value, db.response, db.orders[best.value].price, db.calls);
    }
  }

  /**
   * Where a pass stops with called positions left, nothing on the books can be matched with
   * them: no settle order, unless those are skipped, and no limit order.  The best limit order
   * is below `minPrice`, or some position cannot pay it; without settle orders the latter means
   * that rounding put the price it asks for below the squeeze price.
   */
  ghost predicate IsBlocked(db: Ledger, best: Option<nat>, minPrice: Price, skipSettles: bool)
    requires CallsOpen(db) && db.feed.Some? && db.feed.value.Valid()
    reads db`orders, db`feed, db`settles, db`calls
  {
    && IsBestOption(db.orders, db.p.mia, db.p.backing, best)
    && (db.settles == map[] || skipSettles)
    && (|| NoCross(db.orders, db.p.mia, db.p.backing, minPrice)
        || (&& best.Some? && CannotPay(db.feed.value, db.calls, db.orders[best.value].price)
            && (db.settles == map[]
                ==> Less(PaidFor(db.feed.value, db.orders[best.value].price), db.feed.value.SqueezePrice()))))
  }

  /** A position that passed the black swan check but cannot pay the best order: only if rounding put that below the squeeze price. */
  lemma OnlyRounding(f: Feed, response: Response, price: Price, calls: map<Account, Position>)
    requires f.Valid() && (forall x :: x in calls ==> Open(calls[x]))
    ensures AllPay(calls, Highest(f, response, Some(price))) && CannotPay(f, calls, price)
            ==> Less(PaidFor(f, price), f.SqueezePrice())
  {
    if AllPay(calls, Highest(f, response, Some(price))) && CannotPay(f, calls, price) {
      var pays := PaidFor(f, price);
      var x :| x in calls && IsSwan(calls[x], pays);
      assert !IsSwan(calls[x], Highest(f, response, Some(price)));
    }
  }

  /** Reasons to fail: the transaction may not cause a black swan, or margin calls are stuck. */
  ghost predicate FailedRightly(db: Ledger, status: Status, enableSwan: bool, minPrice: Price, skipSettles: bool)
    requires CallsOpen(db) && db.feed.Some? && db.feed.value.Valid()
    reads db`orders, db`feed, db`settles, db`calls, db`response
  {
    match status
    case Done => false
    case Rejected => !enableSwan && HasSwan(db)
    case Stuck => exists best :: StuckOn(db, best, minPrice, skipSettles)
  }

  /** A pass from here gets stuck: there is no black swan to deal with first. */
  ghost predicate Sticks(db: Ledger, minPrice: Price, skipSettles: bool)
    requires CallsOpen(db) && db.feed.Some? && db.feed.value.Valid()
    reads db
  {
    forall best :: IsBestOption(db.orders, db.p.mia, db.p.backing, best)
                   ==> SticksOn(db, best, minPrice, skipSettles) && (db.settles == map[] ==> NoneUnder(db, best))
  }

  /** Margin calls are stuck only where rounding put the least collateralized position on both sides of its target. */
  lemma StuckIsInexact(db: Ledger, best: Option<nat>, minPrice: Price, skipSettles: bool)
    requires CallsOpen(db) && db.feed.Some? && db.feed.value.Valid() && StuckOn(db, best, minPrice, skipSettles)
    ensures !AllExact(db.feed, db.calls)
  {
    var f := db.feed.value;
    var pays := if StuckAt(f, db.calls, f.SqueezePrice()) then f.SqueezePrice() else PaidFor(f, db.orders[best.value].price);
    var x :| x in db.calls && IsLeast(db.calls, x) && CoversNone(f, db.calls[x], pays);
    CoversNoneIsInexact(f, db.calls[x], pays);
  }

  /** The current price differs from the median. */
  predicate PriceCapped(f: Feed) {
    Less(f.median, f.current) || Less(f.current, f.median)
  }

  /**
   * Where `minPrice` comes from: it is the margin call order price of the current feed or, when
   * the feed can move during the loop, of a feed whose price was no longer capped.
   */
  ghost predicate TakenFrom(minPrice: Price, f: Feed, response: Response)
    requires f.Valid()
  {
    || minPrice == f.CallOrderPrice()
    || (response == NoSettlement && exists g: Feed :: TakenUncapped(minPrice, f, g))
  }

  ghost predicate TakenUncapped(minPrice: Price, f: Feed, g: Feed)
    requires f.Valid()
  {
    SameParameters(f, g) && !PriceCapped(g) && minPrice == g.CallOrderPrice()
  }

  /**
   * A new order or settle order is matched at the prices of `g`: the current feed or, when that can move in
   * between, one whose price was no longer capped.
   */
  ghost predicate PaidFrom(g: Feed, f: Feed, response: Response) {
    g.Valid() && SameParameters(f, g) && (g == f || (response == NoSettlement && !PriceCapped(g)))
  }

  /** The loop's own view: it goes on taking `minPrice` from the feed for as long as that is capped. */
  ghost predicate Watched(minPrice: Price, f: Feed, response: Response, updateFeed: bool)
    requires f.Valid()
  {
    if response == NoSettlement && !updateFeed then exists g: Feed :: TakenUncapped(minPrice, f, g)
    else minPrice == f.CallOrderPrice() && (updateFeed ==> response == NoSettlement)
  }

  lemma WatchIsTaken(minPrice: Price, f: Feed, response: Response, updateFeed: bool)
    requires f.Valid() && Watched(minPrice, f, response, updateFeed)
    ensures TakenFrom(minPrice, f, response)
    ensures response != NoSettlement ==> minPrice == f.CallOrderPrice() && !updateFeed
  {
  }

  lemma WatchStarts(f: Feed, response: Response)
    requires f.Valid()
    ensures Watched(f.CallOrderPrice(), f, response, response == NoSettlement && PriceCapped(f))
  {
    if response == NoSettlement && !PriceCapped(f) { assert TakenUncapped(f.CallOrderPrice(), f, f); }
  }

  lemma WatchGoesOn(minPrice: Price, before: Feed, after: Feed)
    requires before.Valid() && SameParameters(before, after) && Watched(minPrice, before, NoSettlement, false)
    ensures Watched(minPrice, after, NoSettlement, false)
  {
    var g: Feed :| TakenUncapped(minPrice, before, g);
    assert TakenUncapped(minPrice, after, g);
  }

  /** Nothing is left for margin calls to do; `minPrice` is the price at which they stand in the book. */
  ghost predicate Quiet(db: Ledger, minPrice: Price, skipSettles: bool)
    requires CallsOpen(db) && (db.feed.Some? ==> db.feed.value.Valid())
    reads db
  {
    || db.swan.Some? || db.feed.None?
    || (NoneCalled(db.feed.value, db.calls) && DebtOrderQuiet(db))
    || exists best :: IsBlocked(db, best, minPrice, skipSettles)
  }

  /**
   * Margin calls.  The loop ends; unless it fails it leaves the market quiet: globally
   * settled, or no position called, or nothing left to match those that are.  It fails
   * only if a black swan is not allowed, or where margin calls are stuck, and then rounding
   * is to blame; and it does fail where they are stuck from the start.
   */
  method CheckCallOrders(db: Ledger, enableSwan: bool, skipSettles: bool)
    returns (status: Status, called: bool, minPrice: Price)
    requires Valid(db) && NoDust(db)
    modifies db
    ensures Valid(db) && NoDust(db) && forall b :: db.Net(b) == old(db.Net(b))
    ensures NoLess(old(db.balances), db.balances)
    ensures status == Done ==> Quiet(db, minPrice, skipSettles)
    ensures db.swan.None? && db.feed.Some? && db.response != NoSettlement ==> minPrice == db.feed.value.CallOrderPrice()
    ensures db.swan.None? && !called ==> db.calls == old(db.calls)
    ensures status != Done ==> db.swan.None? && db.feed.Some? && FailedRightly(db, status, enableSwan, minPrice, skipSettles)
    ensures status == Done && db.swan.None? && db.feed.Some? && !skipSettles && db.settles != map[]
            ==> NoneCalled(db.feed.value, db.calls)
    ensures enableSwan && old(SettlesAll(db) && HasSwan(db)) ==> status == Done && db.swan.Some?
    ensures status == Stuck ==> !AllExact(old(db.feed), old(db.calls))
    ensures old(db.swan.None? && db.feed.Some? && Sticks(db, db.feed.value.CallOrderPrice(), skipSettles)) ==> status == Stuck
    ensures !enableSwan && old(db.swan.None?) ==> db.swan.None?
    ensures skipSettles ==> db.settles == old(db.settles)
    ensures db.swan.None? ==> db.response == old(db.response) && SameFeed(old(db.feed), db.feed) && SameTargets(old(db.calls), db.calls)
    ensures db.swan.None? && db.feed.Some? ==> TakenFrom(minPrice, db.feed.value, db.response)
  {
    hide Ledger.Net, Ledger.CoreGap, Ledger.TotalDebt, Ledger.DebtGap, AtMost, Less, Scale, Highest, IsSwan, CoversNone, Called, Feed.CallOrderPrice, Feed.SqueezePrice,
         IsBestOption, StuckOn, SticksOn, AllExact, SwanFound, HasSwan;
    ghost var feed, calls := db.feed, db.calls;
    TargetsChain(calls, calls, calls);
    minPrice := if db.feed.Some? then db.feed.value.CallOrderPrice() else Pair(1, 1);
    if db.response != SettleToFund && db.response != SettleToOrder {
      var b := BestLimit(db.orders, db.p.mia, db.p.backing);
      if SettlesAll(db) && HasSwan(db) { SwanIsFound(db, b); }
      var settled;
      status, settled := CheckForBlackSwan(db, enableSwan, b);
      if status == Rejected {
        SwanIsHad(db, b);
        return Rejected, false, minPrice;
      }
      if settled { return Done, false, minPrice; }
    }
    if db.swan.Some? || db.feed.None? { return Done, false, minPrice; }
    status, called, minPrice := CallLoop(db, enableSwan, skipSettles);
    if status == Stuck {
      ghost var best :| StuckOn(db, best, minPrice, skipSettles);
      StuckIsInexact(db, best, minPrice, skipSettles);
      if AllExact(feed, calls) { StillExact(feed, db.feed, calls, db.calls); }
    }
  }

  method CallLoop(db: Ledger, enableSwan: bool, skipSettles: bool)
    returns (status: Status, called: bool, minPrice: Price)
    requires Valid(db) && NoDust(db) && db.swan.None? && db.feed.Some?
    modifies db
    ensures Valid(db) && NoDust(db) && forall b :: db.Net(b) == old(db.Net(b))
    ensures NoLess(old(db.balances), db.balances)
    ensures status == Done ==> Quiet(db, minPrice, skipSettles)
    ensures db.swan.None? && db.feed.Some? && db.response != NoSettlement ==> minPrice == db.feed.value.CallOrderPrice()
    ensures db.swan.None? && !called ==> db.calls == old(db.calls)
    ensures status != Done ==> db.swan.None? && db.feed.Some? && FailedRightly(db, status, enableSwan, minPrice, skipSettles)
    ensures old(Sticks(db, db.feed.value.CallOrderPrice(), skipSettles)) ==> status == Stuck
    ensures !enableSwan ==> db.swan.None?
    ensures skipSettles ==> db.settles == old(db.settles)
    ensures db.swan.None? ==> db.response == old(db.response) && SameFeed(old(db.feed), db.feed) && SameTargets(old(db.calls), db.calls)
    ensures db.swan.None? && db.feed.Some? ==> TakenFrom(minPrice, db.feed.value, db.response)
  {
    hide Ledger.Net, Ledger.CoreGap, Ledger.TotalDebt, Ledger.DebtGap, AtMost, Less, IsBlocked, FailedRightly, Sticks, Solvent, SettlesValid, OrdersValid, CoreExact, NoneCalled;
    var finished;
    status, called, minPrice, finished := RepeatPasses(db, enableSwan, skipSettles);
    if finished {
      CheckSettledDebtOrder(db);
    }
  }

  /** Where margin calls are stuck there are positions. */
  lemma SticksOnPosition(db: Ledger, minPrice: Price, skipSettles: bool)
    requires CallsOpen(db) && db.feed.Some? && db.feed.value.Valid() && Sticks(db, minPrice, skipSettles)
    ensures db.calls != map[]
  {
    if HasSide(db.orders, db.p.mia, db.p.backing) {
      BestExists(db.orders, db.p.mia, db.p.backing);
      var id :| id in db.orders && IsBest(db.orders, db.p.mia, db.p.backing, id);
      assert IsBestOption(db.orders, db.p.mia, db.p.backing, Some(id));
    } else {
      assert IsBestOption(db.orders, db.p.mia, db.p.backing, None);
    }
  }

  lemma BlockedIsQuiet(db: Ledger, best: Option<nat>, minPrice: Price, skipSettles: bool)
    requires CallsOpen(db) && db.feed.Some? && db.feed.value.Valid() && IsBlocked(db, best, minPrice, skipSettles)
    ensures Quiet(db, minPrice, skipSettles)
  {
  }

  lemma SwanIsQuiet(db: Ledger, minPrice: Price, skipSettles: bool)
    requires CallsOpen(db) && (db.feed.Some? ==> db.feed.value.Valid()) && db.swan.Some?
    ensures Quiet(db, minPrice, skipSettles)
  {
  }

  /** One pass, after which the price at which margin calls stand is taken from the feed again for as long as that is capped. */
  method WatchedPass(db: Ledger, enableSwan: bool, skipSettles: bool, minPrice: Price, updateFeed: bool)
    returns (r: PassResult, called: bool, newMin: Price, newUpdate: bool)
    requires Valid(db) && NoDust(db) && db.swan.None? && db.feed.Some? && db.calls != map[]
    requires Watched(minPrice, db.feed.value, db.response, updateFeed)
    modifies db
    ensures Valid(db) && NoDust(db) && forall b :: db.Net(b) == old(db.Net(b))
    ensures NoLess(old(db.balances), db.balances)
    ensures db.swan.None? ==> db.response == old(db.response) && SameFeed(old(db.feed), db.feed) && SameTargets(old(db.calls), db.calls)
    ensures db.swan.None? && !called ==> db.calls == old(db.calls)
    ensures db.swan.None? && db.response != NoSettlement ==> newMin == db.feed.value.CallOrderPrice()
    ensures db.swan.None? ==> Watched(newMin, db.feed.value, db.response, newUpdate)
    ensures r == Again ==> db.swan.Some? || db.TotalDebt() < old(db.TotalDebt())
                           || (db.TotalDebt() == old(db.TotalDebt()) && |db.settles| < old(|db.settles|))
    ensures r == Protected ==> db.swan.None? && NoneCalled(db.feed.value, db.calls)
    ensures r == Blocked || db.swan.Some? ==> Quiet(db, newMin, skipSettles)
    ensures r.Failed? ==> db.swan.None? && r.status != Done && FailedRightly(db, r.status, enableSwan, newMin, skipSettles)
    ensures old(Sticks(db, minPrice, skipSettles)) ==> r == Failed(Stuck) && db.swan.None?
    ensures !enableSwan ==> db.swan.None?
    ensures skipSettles ==> db.settles == old(db.settles)
  {
    hide Ledger.Net, Ledger.CoreGap, Ledger.TotalDebt, Ledger.DebtGap, AtMost, Less, Feed.CallOrderPrice, Feed.SqueezePrice, SameTargets, Solvent,
         PoolValid, SettlesValid, OrdersValid, CoreExact, BidsValid, IsBlocked, PriceCapped, NoDust, FailedRightly, Sticks, Quiet, Watched, NoneCalled, NoLess;
    ghost var before := db.feed.value;
    WatchIsTaken(minPrice, before, db.response, updateFeed);
    ghost var best;
    newUpdate := updateFeed;
    r, called, newMin, best := CallPass(db, enableSwan, skipSettles, minPrice, updateFeed);
    if db.swan.Some? {
      SwanIsQuiet(db, newMin, skipSettles);
      return;
    }
    if r == Blocked { BlockedIsQuiet(db, best, newMin, skipSettles); }
    if db.response != NoSettlement {
      WatchStarts(db.feed.value, db.response);
    } else if r == Again {
      if updateFeed {
        newMin, newUpdate := db.feed.value.CallOrderPrice(), PriceCapped(db.feed.value);
        WatchStarts(db.feed.value, db.response);
      } else {
        WatchGoesOn(minPrice, before, db.feed.value);
      }
    }
  }

  /** Passes until the market is globally settled, nothing can be matched, no position is called, or a pass fails. */
  method RepeatPasses(db: Ledger, enableSwan: bool, skipSettles: bool)
    returns (status: Status, called: bool, minPrice: Price, finished: bool)
    requires Valid(db) && NoDust(db) && db.swan.None? && db.feed.Some?
    modifies db
    ensures Valid(db) && NoDust(db) && forall b :: db.Net(b) == old(db.Net(b))
    ensures NoLess(old(db.balances), db.balances)
    ensures finished ==> status == Done && db.swan.None? && db.feed.Some? && NoneCalled(db.feed.value, db.calls)
    ensures status == Done && !finished ==> Quiet(db, minPrice, skipSettles)
    ensures db.swan.None? && db.feed.Some? && db.response != NoSettlement ==> minPrice == db.feed.value.CallOrderPrice()
    ensures db.swan.None? && !called ==> db.calls == old(db.calls)
    ensures status != Done ==> db.swan.None? && db.feed.Some? && FailedRightly(db, status, enableSwan, minPrice, skipSettles)
    ensures old(Sticks(db, db.feed.value.CallOrderPrice(), skipSettles)) ==> status == Stuck
    ensures !enableSwan ==> db.swan.None?
    ensures skipSettles ==> db.settles == old(db.settles)
    ensures db.swan.None? ==> db.response == old(db.response) && SameFeed(old(db.feed), db.feed) && SameTargets(old(db.calls), db.calls)
    ensures db.swan.None? && db.feed.Some? ==> TakenFrom(minPrice, db.feed.value, db.response)
  {
    hide Ledger.Net, Ledger.CoreGap, AtMost, Less, Scale, Highest, IsSwan, Called, Feed.CallOrderPrice, Feed.SqueezePrice, IsBest,
         SameTargets, Sticks, Solvent, PoolValid, SettlesValid, OrdersValid, CoreExact, IsBlocked,
         DebtOrderQuiet, PriceCapped, Ledger.TotalDebt, Ledger.DebtGap, NoDust, FailedRightly, Quiet, Watched, TakenFrom,
         BidsValid, NoLess;
    SameIsNoLess(db.balances);
    ghost var feed, calls := db.feed, db.calls;
    TargetsChain(calls, calls, calls);
    WatchStarts(db.feed.value, db.response);
    minPrice := db.feed.value.CallOrderPrice();
    var updateFeed := db.response == NoSettlement && PriceCapped(db.feed.value);
    called, status, finished := false, Done, true;
    ghost var sticks := Sticks(db, minPrice, skipSettles);
    if sticks { SticksOnPosition(db, minPrice, skipSettles); }
    while db.calls != map[]
      invariant Valid(db) && NoDust(db) && db.swan.None? && db.feed.Some? && finished && status == Done
      invariant forall b :: db.Net(b) == old(db.Net(b))
      invariant NoLess(old(db.balances), db.balances)
      invariant SameFeed(feed, db.feed) && SameTargets(calls, db.calls) && db.response == old(db.response)
      invariant skipSettles ==> db.settles == old(db.settles)
      invariant Watched(minPrice, db.feed.value, db.response, updateFeed)
      invariant !called ==> db.calls == calls
      invariant sticks ==> db.calls != map[] && Sticks(db, minPrice, skipSettles)
      decreases db.TotalDebt(), |db.settles|
    {
      DebtIsPositive(db);
      ghost var between, balances := db.calls, db.balances;
      var r, calledNow;
      r, calledNow, minPrice, updateFeed := WatchedPass(db, enableSwan, skipSettles, minPrice, updateFeed);
      NoLessChain(old(db.balances), balances, db.balances);
      called := called || calledNow;
      finished := db.swan.None? && (r == Again || r == Protected);
      if db.swan.Some? { break; }
      TargetsChain(calls, between, db.calls);
      match r
      case Blocked => break;
      case Failed(s) =>
        status := s;
        break;
      case Protected => break;
      case Again => DebtIsPositive(db);
    }
    if db.swan.None? { WatchIsTaken(minPrice, db.feed.value, db.response, updateFeed); }
  }
}
