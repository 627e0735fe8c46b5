/**
 * A new or changed limit order meets the market: the better part of the book, then
 * the called positions, then the rest of the book.
 */
module Taking {
  import opened Wrappers
  import opened Prices
  import opened MaxDebt
  import opened SettledDebt
  import opened SettleMatch
  import opened Feeds
  import opened Ledger
  import opened Market
  import opened Finders
  import opened Settlement
  import opened MarginCalls

  /** Every order but `id` is large enough to receive something. */
  ghost predicate NoOtherDust(db: Ledger, id: nat)
    reads db`orders
  {
    forall j :: j in db.orders && j != id ==> db.orders[j].ToReceive() > 0
  }

  /** Two orders on opposite sides of a market that both accept a common price. */
  predicate Cross(a: LimitOrder, b: LimitOrder) {
    a.sells == b.wants && a.wants == b.sells && AtMost(Inverse(a.price), b.price)
  }

  /** Prices strictly above `floor`, if there is one. */
  predicate Above(p: Price, floor: Option<Price>) {
    floor.Some? ==> Less(floor.value, p)
  }

  /** No order above the floor meets `o`. */
  ghost predicate NoneMeets(orders: map<nat, LimitOrder>, o: LimitOrder, floor: Option<Price>) {
    forall j :: j in orders && Cross(o, orders[j]) ==> !Above(orders[j].price, floor)
  }

  /** If the best price does not meet an order, or is not above the floor, no lower price is any better. */
  lemma LowerIsNoBetter(best: Price, p: Price, own: Price, floor: Option<Price>)
    requires AtMost(p, best) && !(AtMost(Inverse(own), best) && Above(best, floor))
    ensures !(AtMost(Inverse(own), p) && Above(p, floor))
  {
    if AtMost(Inverse(own), p) { BelowAbove(Inverse(own), p, best); }
    if floor.Some? && AtMost(best, floor.value) { BelowAbove(p, best, floor.value); }
  }

  lemma BestDoesNotMeet(orders: map<nat, LimitOrder>, t: LimitOrder, best: Option<nat>, top: Price, floor: Option<Price>)
    requires IsBestOption(orders, t.wants, t.sells, best)
    requires best.Some? ==> AtMost(orders[best.value].price, top) && !(AtMost(Inverse(t.price), top) && Above(top, floor))
    ensures NoneMeets(orders, t, floor)
  {
    forall j | j in orders && Cross(t, orders[j]) ensures !Above(orders[j].price, floor) {
      assert OnSide(orders[j], t.wants, t.sells);
      BelowAbove(orders[j].price, orders[best.value].price, top);
      LowerIsNoBetter(top, orders[j].price, t.price, floor);
    }
  }

  /** The order selling settled debt does not meet `o`, or is not above the floor. */
  predicate DebtNotMet(o: LimitOrder, debt: Option<DebtOrder>, p: Params, floor: Option<Price>) {
    debt.Some? && OnSide(o, p.mia, p.backing) && Above(debt.value.price, floor) ==> !AtMost(Inverse(o.price), debt.value.price)
  }

  /** The order selling settled debt is gone, or has kept its price. */
  predicate SameDebtPrice(before: Option<DebtOrder>, after: Option<DebtOrder>) {
    after.Some? ==> before.Some? && after.value.price == before.value.price
  }

  datatype StepResult = Continue | Finished | NoMatch

  /** What is outside the book stays as it is. */
  ghost predicate BookOnly(db: Ledger, calls: map<Account, Position>, settles: map<nat, SettleOrder>, feed: Option<Feed>,
                           response: Response, swan: Option<Price>)
    reads db`calls, db`settles, db`feed, db`response, db`swan
  {
    db.calls == calls && db.settles == settles && db.feed == feed && db.response == response && db.swan == swan
  }

  /** Matches an order with the best of the other side, a limit order or the order selling settled debt. */
  method BookStep(db: Ledger, id: nat, floor: Option<Price>) returns (r: StepResult)
    requires Valid(db) && id in db.orders && NoOtherDust(db, id)
    modifies db
    ensures Valid(db) && NoOtherDust(db, id) && forall b :: db.Net(b) == old(db.Net(b))
    ensures NoLess(old(db.balances), db.balances)
    ensures FewerOrders(db.orders, old(db.orders))
    ensures BookOnly(db, old(db.calls), old(db.settles), old(db.feed), old(db.response), old(db.swan))
    ensures r == Continue ==> id in db.orders
    ensures r == Continue ==> (old(db.debtOrder.Some?) && db.debtOrder.None?)
                              || (db.debtOrder == old(db.debtOrder) && |db.orders| < old(|db.orders|))
    ensures r == NoMatch ==> db.orders == old(db.orders) && NoneMeets(db.orders, db.orders[id], floor)
    ensures r == Finished && id in db.orders ==> db.orders[id].ToReceive() == 0
    ensures SameDebtPrice(old(db.debtOrder), db.debtOrder)
    ensures r == NoMatch ==> DebtNotMet(db.orders[id], db.debtOrder, db.p, floor)
  {
    hide Ledger.Net, Ledger.CoreGap, Ledger.TotalDebt, Ledger.DebtGap;
    var t := db.orders[id];
    var best := BestLimit(db.orders, t.wants, t.sells);
    var tie: bool := *;
    if db.debtOrder.Some? && OnSide(t, db.p.mia, db.p.backing)
       && (best.None? || Less(db.orders[best.value].price, db.debtOrder.value.price)
           || (tie && AtMost(db.orders[best.value].price, db.debtOrder.value.price))) {
      var top := db.debtOrder.value.price;
      if !(AtMost(Inverse(t.price), top) && Above(top, floor)) {
        BestDoesNotMeet(db.orders, t, best, top, floor);
        return NoMatch;
      }
      r := TakeDebtOrder(db, id);
      return;
    }
    if best.None? {
      BestDoesNotMeet(db.orders, t, best, t.price, floor);
      return NoMatch;
    }
    var top := db.orders[best.value].price;
    if !(AtMost(Inverse(t.price), top) && Above(top, floor)) {
      BestDoesNotMeet(db.orders, t, best, top, floor);
      if db.debtOrder.Some? && AtMost(db.debtOrder.value.price, top) {
        LowerIsNoBetter(top, db.debtOrder.value.price, t.price, floor);
      }
      return NoMatch;
    }
    r := TakeMaker(db, id, best.value);
  }

  method TakeDebtOrder(db: Ledger, id: nat) returns (r: StepResult)
    requires Valid(db) && id in db.orders && NoOtherDust(db, id) && db.debtOrder.Some?
    requires OnSide(db.orders[id], db.p.mia, db.p.backing)
    requires AtMost(Inverse(db.orders[id].price), db.debtOrder.value.price)
    modifies db
    ensures Valid(db) && NoOtherDust(db, id) && forall b :: db.Net(b) == old(db.Net(b))
    ensures NoLess(old(db.balances), db.balances)
    ensures FewerOrders(db.orders, old(db.orders))
    ensures BookOnly(db, old(db.calls), old(db.settles), old(db.feed), old(db.response), old(db.swan))
    ensures r == Finished || (r == Continue && id in db.orders && db.debtOrder.None?)
    ensures r == Finished && id in db.orders ==> db.orders[id].ToReceive() == 0
    ensures SameDebtPrice(old(db.debtOrder), db.debtOrder)
  {
    hide Ledger.Net, Ledger.CoreGap, Ledger.TotalDebt, Ledger.DebtGap;
    var takerGone, orderGone := MatchLimitWithDebtOrder(db, id);
    r := if takerGone then Finished else Continue;
  }

  method TakeMaker(db: Ledger, id: nat, maker: nat) returns (r: StepResult)
    requires Valid(db) && id in db.orders && NoOtherDust(db, id) && maker in db.orders
    requires Cross(db.orders[id], db.orders[maker])
    modifies db
    ensures Valid(db) && NoOtherDust(db, id) && forall b :: db.Net(b) == old(db.Net(b))
    ensures NoLess(old(db.balances), db.balances)
    ensures FewerOrders(db.orders, old(db.orders))
    ensures BookOnly(db, old(db.calls), old(db.settles), old(db.feed), old(db.response), old(db.swan))
    ensures db.debtOrder == old(db.debtOrder)
    ensures r == Finished || (r == Continue && id in db.orders && |db.orders| < old(|db.orders|))
    ensures r == Finished && id in db.orders ==> db.orders[id].ToReceive() == 0
  {
    hide Ledger.Net, Ledger.CoreGap, Ledger.TotalDebt, Ledger.DebtGap, AtMost;
    ghost var before := db.orders;
    var traded := MatchLimits(db, id, maker);
    r := if traded && id in db.orders then Continue else Finished;
    if r == Continue { KeysShrink(db.orders, before, maker); }
  }

  lemma KeysShrink(after: map<nat, LimitOrder>, before: map<nat, LimitOrder>, gone: nat)
    requires after.Keys <= before.Keys && gone in before && gone !in after
    ensures |after| < |before|
  {
    assert after.Keys <= before.Keys - {gone};
    SubsetSize(after.Keys, before.Keys - {gone});
  }

  lemma {:induction false} SubsetSize<T>(a: set<T>, b: set<T>)
    requires a <= b
    ensures |a| <= |b|
    decreases |a|
  {
    if a != {} {
      var x :| x in a;
      SubsetSize(a - {x}, b - {x});
    }
  }

  /** Matches an order with the other side of the book while that is above the floor and meets its price. */
  method MatchBook(db: Ledger, id: nat, floor: Option<Price>) returns (finished: bool)
    requires Valid(db) && id in db.orders && NoOtherDust(db, id)
    modifies db
    ensures Valid(db) && NoOtherDust(db, id) && forall b :: db.Net(b) == old(db.Net(b))
    ensures NoLess(old(db.balances), db.balances)
    ensures FewerOrders(db.orders, old(db.orders))
    ensures BookOnly(db, old(db.calls), old(db.settles), old(db.feed), old(db.response), old(db.swan))
    ensures !finished ==> id in db.orders && NoneMeets(db.orders, db.orders[id], floor)
    ensures finished && id in db.orders ==> db.orders[id].ToReceive() == 0
    ensures SameDebtPrice(old(db.debtOrder), db.debtOrder)
    ensures !finished ==> DebtNotMet(db.orders[id], db.debtOrder, db.p, floor)
  {
    hide Ledger.Net, Ledger.CoreGap, Ledger.TotalDebt, Ledger.DebtGap, NoneMeets;
    while true
      invariant Valid(db) && NoOtherDust(db, id) && id in db.orders
      invariant forall b :: db.Net(b) == old(db.Net(b))
      invariant NoLess(old(db.balances), db.balances)
      invariant FewerOrders(db.orders, old(db.orders)) && SameDebtPrice(old(db.debtOrder), db.debtOrder)
      invariant BookOnly(db, old(db.calls), old(db.settles), old(db.feed), old(db.response), old(db.swan))
      decreases if db.debtOrder.Some? then 1 else 0, |db.orders|
    {
      var r := BookStep(db, id, floor);
      match r
      case Continue =>
      case Finished => return true;
      case NoMatch => return false;
    }
  }

  // Called positions

  datatype TakeResult = Traded | TooSmall | CannotExecute | Nothing

  /**
   * The amounts of a match of a new order with a called position.  A position that can
   * pay the squeeze price can always execute it, and keeps its ratio unless the limit
   * computed for it would lower that.
   */
  method QuoteTake(f: Feed, c: Position, forSale: nat, matchPrice: Price, paysPrice: Price)
    returns (r: TakeResult, fill: CallFill, cull: bool)
    requires f.Valid() && Open(c) && Called(f, c) && AtMost(paysPrice, matchPrice)
    ensures r == Traded ==> && fill.CallFill? && 0 < fill.covers <= forSale && fill.covers <= c.debt
                            && fill.limitReceives <= fill.callPays <= c.collateral
                            && (fill.covers < c.debt ==> fill.callPays < c.collateral)
    ensures r == TooSmall ==> ToQuote(forSale, matchPrice) == 0
    ensures r == CannotExecute ==> IsSwan(c, paysPrice)
    ensures r == Nothing <==> CoversNone(f, c, paysPrice)
    ensures r == Traded && fill.covers < c.debt && TargetExact(f, c.targetRatio) && !IsSwan(c, paysPrice)
            ==> RatioKept(c, fill.covers, fill.callPays)
  {
    fill, cull := NoFill, false;
    var toBuy := CoverLimit(f, c, paysPrice);
    if toBuy == 0 { return Nothing, fill, cull; }
    QuoteCallSound(forSale, toBuy, matchPrice, paysPrice);
    fill := QuoteCall(forSale, toBuy, matchPrice, paysPrice);
    if fill.NoFill? { return TooSmall, fill, cull; }
    cull := toBuy > forSale;
    if !IsSwan(c, paysPrice) { CanExecute(c, forSale, toBuy, matchPrice, paysPrice); }
    if fill.callPays > c.collateral || (fill.covers < c.debt && fill.callPays == c.collateral) {
      return CannotExecute, fill, cull;
    }
    return Traded, fill, cull;
  }

  lemma CanExecute(c: Position, forSale: nat, toBuy: nat, matchPrice: Price, paysPrice: Price)
    requires Open(c) && toBuy > 0 && LimitAffordable(c, paysPrice, toBuy) && !IsSwan(c, paysPrice)
    requires toBuy > forSale ==> ToQuote(forSale, matchPrice) > 0
    ensures var fill := QuoteCall(forSale, toBuy, matchPrice, paysPrice);
            && fill.CallFill? && fill.callPays <= c.collateral
            && (fill.covers < c.debt ==> fill.callPays < c.collateral)
            && (toBuy > forSale ==> RatioKept(c, fill.covers, fill.callPays))
  {
    QuoteCallSound(forSale, toBuy, matchPrice, paysPrice);
    if toBuy > forSale {
      Affordable(c, paysPrice, QuoteCall(forSale, toBuy, matchPrice, paysPrice).covers);
    } else if toBuy == c.debt {
      OwnRatioFull(c, paysPrice);
    }
  }

  lemma DustAtHigherPrice(x: nat, low: Price, high: Price)
    requires AtMost(low, high) && ToQuote(x, low) == 0
    ensures ToQuote(x, high) == 0
  {
    WorseRateConvertsLess(x, Inverse(high), Inverse(low));
  }

  datatype CallStepResult = CoveredMore | TakerDone | TakerDust | NoneLeft | Fails(status: Status)

  /**
   * Why a match with a called position fails: nothing of the least collateralized position is to be covered at
   * the price it pays, or it cannot pay that price.
   */
  ghost predicate TakeFails(status: Status, f: Feed, calls: map<Account, Position>, paysPrice: Price)
    requires f.Valid() && forall x :: x in calls ==> Open(calls[x])
  {
    exists x :: x in calls && IsLeast(calls, x) && Called(f, calls[x]) && FailsAt(status, f, calls[x], paysPrice)
  }

  ghost predicate FailsAt(status: Status, f: Feed, c: Position, paysPrice: Price)
    requires f.Valid() && Open(c)
  {
    match status
    case Done => false
    case Rejected => IsSwan(c, paysPrice)
    case Stuck => CoversNone(f, c, paysPrice)
  }

  /** Under these conditions no match with a called position fails. */
  ghost predicate Smooth(f: Option<Feed>, response: Response, calls: map<Account, Position>, paysPrice: Price)
    requires f.Some? ==> f.value.Valid()
    requires forall y :: y in calls ==> Open(calls[y])
  {
    response != NoSettlement && AllExact(f, calls) && AllPay(calls, paysPrice)
  }

  /** Matches a new order with the least collateralized position, if that is called. */
  method TakeFromCall(db: Ledger, id: nat, matchPrice: Price, paysPrice: Price) returns (r: CallStepResult)
    requires Valid(db) && db.swan.None? && db.feed.Some? && id in db.orders && NoOtherDust(db, id)
    requires OnSide(db.orders[id], db.p.mia, db.p.backing) && AtMost(paysPrice, matchPrice)
    modifies db
    ensures Valid(db) && NoOtherDust(db, id) && forall b :: db.Net(b) == old(db.Net(b))
    ensures NoLess(old(db.balances), db.balances)
    ensures FewerOrders(db.orders, old(db.orders)) && db.settles == old(db.settles)
    ensures db.swan.None? && db.response == old(db.response) && db.feed == old(db.feed)
    ensures r == CoveredMore ==> id in db.orders && db.TotalDebt() < old(db.TotalDebt())
    ensures r != TakerDone ==> id in db.orders
    ensures r == TakerDone ==> id !in db.orders
    ensures r == TakerDust && old(AtMost(matchPrice, db.orders[id].price)) ==> db.orders[id].ToReceive() == 0
    ensures r != CoveredMore && r != TakerDone ==> db.calls == old(db.calls)
    ensures old(Smooth(db.feed, db.response, db.calls, paysPrice)) ==> !r.Fails? && Smooth(db.feed, db.response, db.calls, paysPrice)
    ensures r.Fails? ==> r.status != Done && TakeFails(r.status, db.feed.value, db.calls, paysPrice)
    ensures r == NoneLeft ==> NoneCalled(db.feed.value, db.calls)
    ensures db.debtOrder == old(db.debtOrder)
    ensures old(NoneCalled(db.feed.value, db.calls)) ==> db.calls == old(db.calls) && r == NoneLeft
  {
    hide Ledger.Net, Ledger.CoreGap, Ledger.TotalDebt, Ledger.DebtGap;
    if db.calls == map[] { return NoneLeft; }
    LeastExists(db.calls);
    var x :| x in db.calls && IsLeast(db.calls, x);
    if !Called(db.feed.value, db.calls[x]) {
      NoOtherCalled(db.feed.value, db.calls, x);
      return NoneLeft;
    }
    r := ExecuteTake(db, id, x, matchPrice, paysPrice);
  }

  method ExecuteTake(db: Ledger, id: nat, x: Account, matchPrice: Price, paysPrice: Price) returns (r: CallStepResult)
    requires Valid(db) && db.swan.None? && db.feed.Some? && id in db.orders && NoOtherDust(db, id)
    requires OnSide(db.orders[id], db.p.mia, db.p.backing) && AtMost(paysPrice, matchPrice)
    requires x in db.calls && Called(db.feed.value, db.calls[x])
    modifies db
    ensures Valid(db) && NoOtherDust(db, id) && forall b :: db.Net(b) == old(db.Net(b))
    ensures NoLess(old(db.balances), db.balances)
    ensures FewerOrders(db.orders, old(db.orders)) && db.settles == old(db.settles)
    ensures db.swan.None? && db.response == old(db.response) && db.feed == old(db.feed)
    ensures r == CoveredMore ==> id in db.orders && db.TotalDebt() < old(db.TotalDebt())
    ensures r != TakerDone ==> id in db.orders
    ensures r == TakerDone ==> id !in db.orders
    ensures r == TakerDust && old(AtMost(matchPrice, db.orders[id].price)) ==> db.orders[id].ToReceive() == 0
    ensures r != CoveredMore && r != TakerDone ==> db.calls == old(db.calls)
    ensures r != NoneLeft
    ensures old(Smooth(db.feed, db.response, db.calls, paysPrice)) ==> !r.Fails? && Smooth(db.feed, db.response, db.calls, paysPrice)
    ensures r.Fails? ==> r.status != Done && FailsAt(r.status, db.feed.value, db.calls[x], paysPrice)
    ensures db.debtOrder == old(db.debtOrder)
  {
    hide Ledger.Net, Ledger.CoreGap, Ledger.TotalDebt, Ledger.DebtGap, TargetExact, CoversNone, IsSwan, AtMost, Called, RatioKept, ToQuote, DivDown,
         Solvent, PoolValid, SettlesValid, CoreExact, NoLess, Credited, Ledger.MarketFee;
    SameIsNoLess(db.balances);
    var forSale := db.orders[id].forSale;
    var q, fill, cull := QuoteTake(db.feed.value, db.calls[x], forSale, matchPrice, paysPrice);
    match q
    case Nothing =>
      CoversNoneIsInexact(db.feed.value, db.calls[x], paysPrice);
      return Fails(Stuck);
    case CannotExecute => return Fails(Rejected);
    case TooSmall =>
      if AtMost(matchPrice, db.orders[id].price) { DustAtHigherPrice(forSale, matchPrice, db.orders[id].price); }
      return TakerDust;
    case Traded =>
      if old(Smooth(db.feed, db.response, db.calls, paysPrice)) {
        AllStillPay(db.calls, x, fill.callPays, fill.covers, paysPrice);
      }
      var limitFilled, callFilled := FillLimitAndCall(db, id, x, fill, cull, false);
      r := if limitFilled then TakerDone else CoveredMore;
  }

  /** The match failed at the squeeze price, of the current feed or of one whose price was no longer capped. */
  ghost predicate TakingFailed(status: Status, f: Feed, response: Response, calls: map<Account, Position>)
    requires f.Valid() && forall x :: x in calls ==> Open(calls[x])
  {
    exists g: Feed :: PaidFrom(g, f, response) && TakeFails(status, f, calls, g.SqueezePrice())
  }

  /** Matches a new order with called positions until it is used up or none is called. */
  method MatchCalls(db: Ledger, id: nat) returns (status: Status, finished: bool)
    requires Valid(db) && db.swan.None? && db.feed.Some? && id in db.orders && NoOtherDust(db, id)
    requires OnSide(db.orders[id], db.p.mia, db.p.backing)
    requires AtMost(db.feed.value.CallOrderPrice(), db.orders[id].price)
    modifies db
    ensures Valid(db) && NoOtherDust(db, id) && forall b :: db.Net(b) == old(db.Net(b))
    ensures NoLess(old(db.balances), db.balances)
    ensures FewerOrders(db.orders, old(db.orders)) && db.settles == old(db.settles)
    ensures db.swan.None? && db.response == old(db.response) && db.feed.Some?
    ensures !finished ==> id in db.orders
    ensures status == Done && finished && id in db.orders && db.response != NoSettlement ==> db.orders[id].ToReceive() == 0
    ensures status != Done ==> TakingFailed(status, db.feed.value, db.response, db.calls)
    ensures old(Smooth(db.feed, db.response, db.calls, db.feed.value.SqueezePrice()))
            ==> status == Done && Smooth(db.feed, db.response, db.calls, db.feed.value.SqueezePrice())
    ensures status == Done && !finished ==> NoneCalled(db.feed.value, db.calls)
    ensures db.debtOrder == old(db.debtOrder)
    ensures old(NoneCalled(db.feed.value, db.calls)) ==> db.calls == old(db.calls) && db.feed == old(db.feed)
    ensures db.response != NoSettlement ==> db.feed == old(db.feed)
  {
    hide Ledger.Net, Ledger.CoreGap, Ledger.TotalDebt, Ledger.DebtGap, AtMost, Less, AllExact, AllPay, NoneCalled, Feed.CallOrderPrice, Feed.SqueezePrice,
         LimitOrder.ToReceive, ToQuote, DivDown, TakeFails, PriceCapped;
    ghost var t, source := db.orders[id], db.feed.value;
    source.FeeIsNotNegative();
    var matchPrice, paysPrice := db.feed.value.CallOrderPrice(), db.feed.value.SqueezePrice();
    var updatePrice := db.response == NoSettlement && PriceCapped(db.feed.value);
    while true
      invariant Valid(db) && NoOtherDust(db, id) && id in db.orders && OnSide(db.orders[id], db.p.mia, db.p.backing)
      invariant db.orders[id].price == t.price
      invariant forall b :: db.Net(b) == old(db.Net(b))
      invariant NoLess(old(db.balances), db.balances)
      invariant FewerOrders(db.orders, old(db.orders)) && db.settles == old(db.settles)
      invariant db.swan.None? && db.response == old(db.response) && db.feed.Some? && db.debtOrder == old(db.debtOrder)
      invariant old(NoneCalled(db.feed.value, db.calls)) ==> db.calls == old(db.calls) && db.feed == old(db.feed)
      invariant db.response != NoSettlement ==> db.feed == old(db.feed) && !updatePrice
      invariant source.Valid() && SameParameters(db.feed.value, source)
      invariant if db.response == NoSettlement && !updatePrice then !PriceCapped(source) else source == db.feed.value
      invariant matchPrice == source.CallOrderPrice() && paysPrice == source.SqueezePrice() && AtMost(paysPrice, matchPrice)
      invariant old(Smooth(db.feed, db.response, db.calls, db.feed.value.SqueezePrice()))
                ==> db.response != NoSettlement && Smooth(db.feed, db.response, db.calls, paysPrice)
      decreases db.TotalDebt()
    {
      DebtIsPositive(db);
      var r := CallStep(db, id, matchPrice, paysPrice);
      match r
      case NoneLeft => return Done, false;
      case Fails(s) =>
        assert PaidFrom(source, db.feed.value, db.response);
        return s, false;
      case TakerDone => return Done, true;
      case TakerDust => return Done, true;
      case CoveredMore =>
        if updatePrice {
          source := db.feed.value;
          source.FeeIsNotNegative();
          matchPrice, paysPrice := db.feed.value.CallOrderPrice(), db.feed.value.SqueezePrice();
          updatePrice := PriceCapped(db.feed.value);
        }
        DebtIsPositive(db);
    }
  }

  /** One match and the update of the current feed that follows it. */
  method CallStep(db: Ledger, id: nat, matchPrice: Price, paysPrice: Price) returns (r: CallStepResult)
    requires Valid(db) && db.swan.None? && db.feed.Some? && id in db.orders && NoOtherDust(db, id)
    requires OnSide(db.orders[id], db.p.mia, db.p.backing) && AtMost(paysPrice, matchPrice)
    modifies db
    ensures Valid(db) && NoOtherDust(db, id) && forall b :: db.Net(b) == old(db.Net(b))
    ensures NoLess(old(db.balances), db.balances)
    ensures FewerOrders(db.orders, old(db.orders)) && db.settles == old(db.settles)
    ensures db.swan.None? && db.response == old(db.response) && db.feed.Some? && SameParameters(old(db.feed.value), db.feed.value)
    ensures db.response != NoSettlement ==> db.feed == old(db.feed)
    ensures r == CoveredMore ==> db.TotalDebt() < old(db.TotalDebt())
    ensures r == TakerDone <==> id !in db.orders
    ensures r == TakerDust && old(AtMost(matchPrice, db.orders[id].price)) ==> db.orders[id].ToReceive() == 0
    ensures old(Smooth(db.feed, db.response, db.calls, paysPrice)) ==> !r.Fails? && Smooth(db.feed, db.response, db.calls, paysPrice)
    ensures r.Fails? ==> db.feed == old(db.feed) && r.status != Done && TakeFails(r.status, db.feed.value, db.calls, paysPrice)
    ensures r == NoneLeft ==> NoneCalled(db.feed.value, db.calls)
    ensures db.debtOrder == old(db.debtOrder)
    ensures old(NoneCalled(db.feed.value, db.calls)) ==> db.calls == old(db.calls) && r == NoneLeft && db.feed == old(db.feed)
  {
    hide Ledger.Net, Ledger.CoreGap, Ledger.TotalDebt, Ledger.DebtGap, AtMost, AllExact, AllPay, NoneCalled, ToQuote, DivDown, Solvent, SettlesValid, OrdersValid, CoreExact;
    r := TakeFromCall(db, id, matchPrice, paysPrice);
    if (r == CoveredMore || r == TakerDone) && db.response == NoSettlement {
      UpdateCurrentFeed(db);
    }
  }

  // A new order

  /** Position in the book: better price first, then older. */
  predicate Ahead(orders: map<nat, LimitOrder>, j: nat, id: nat)
    requires j in orders && id in orders
  {
    && OnSide(orders[j], orders[id].sells, orders[id].wants)
    && (|| Less(orders[id].price, orders[j].price)
        || (AtMost(orders[id].price, orders[j].price) && AtMost(orders[j].price, orders[id].price) && j < id))
  }

  /** No two orders meet, `except` aside. */
  ghost predicate Uncrossed(orders: map<nat, LimitOrder>, except: Option<nat>) {
    forall i, j :: i in orders && j in orders && Some(i) != except && Some(j) != except ==> !Cross(orders[i], orders[j])
  }

  lemma CrossSymmetric(a: LimitOrder, b: LimitOrder)
    ensures Cross(a, b) <==> Cross(b, a)
  {
  }

  /** Behind another order of its side nothing meets an order, since it would meet the one ahead. */
  lemma BehindIsUncrossed(orders: map<nat, LimitOrder>, j: nat, id: nat)
    requires id in orders && j in orders && j != id && Ahead(orders, j, id) && Uncrossed(orders, Some(id))
    ensures Uncrossed(orders, None)
  {
    forall i, k | i in orders && k in orders ensures !Cross(orders[i], orders[k]) {
      CrossSymmetric(orders[i], orders[k]);
      var other := if i == id then k else i;
      if (i == id || k == id) && Cross(orders[id], orders[other]) {
        BelowAbove(Inverse(orders[j].price), Inverse(orders[id].price), orders[other].price);
        assert Cross(orders[j], orders[other]);
      }
    }
  }

  lemma ShrunkIsUncrossed(before: map<nat, LimitOrder>, after: map<nat, LimitOrder>, id: nat)
    requires FewerOrders(after, before) && Uncrossed(before, Some(id))
    requires id in after ==> NoneMeets(after, after[id], None)
    ensures Uncrossed(after, None)
  {
    forall i, k | i in after && k in after ensures !Cross(after[i], after[k]) {
      CrossSymmetric(after[i], after[k]);
      if i != id && k != id {
        assert !Cross(before[i], before[k]);
      } else {
        assert Above(after[i].price, None) && Above(after[k].price, None);
      }
    }
  }

  /** The order selling settled debt meets no order, `except` aside. */
  ghost predicate DebtUnmet(orders: map<nat, LimitOrder>, debt: Option<DebtOrder>, p: Params, except: Option<nat>) {
    forall id :: id in orders && Some(id) != except ==> DebtNotMet(orders[id], debt, p, None)
  }

  /** The order would be matched with margin calls. */
  predicate MeetsCalls(o: LimitOrder, p: Params, f: Feed)
    requires f.Valid()
  {
    OnSide(o, p.mia, p.backing) && AtMost(f.CallOrderPrice(), o.price)
  }

  /** If an order of the book, `except` aside, would be matched with margin calls, there are none. */
  ghost predicate CallsServed(orders: map<nat, LimitOrder>, calls: map<Account, Position>, feed: Option<Feed>, p: Params,
                              except: Option<nat>)
    requires (forall x :: x in calls ==> Open(calls[x])) && (feed.Some? ==> feed.value.Valid())
  {
    feed.Some? ==>
      forall id :: id in orders && Some(id) != except && MeetsCalls(orders[id], p, feed.value) ==> NoneCalled(feed.value, calls)
  }

  /** Nothing on the books meets anything else: orders, the settled debt and margin calls, the order `except` aside. */
  ghost predicate WellMatched(db: Ledger, except: Option<nat>)
    requires CallsOpen(db) && FeedValid(db)
    reads db
  {
    && Uncrossed(db.orders, except) && DebtUnmet(db.orders, db.debtOrder, db.p, except)
    && (db.swan.None? ==> CallsServed(db.orders, db.calls, db.feed, db.p, except))
  }

  /** An order behind another one meets nothing that the one ahead does not meet. */
  lemma BehindIsWellMatched(db: Ledger, j: nat, id: nat)
    requires CallsOpen(db) && FeedValid(db)
    requires id in db.orders && j in db.orders && j != id && Ahead(db.orders, j, id) && WellMatched(db, Some(id))
    ensures WellMatched(db, None)
  {
    var o, ahead := db.orders[id], db.orders[j];
    BehindIsUncrossed(db.orders, j, id);
    if db.debtOrder.Some? && AtMost(Inverse(o.price), db.debtOrder.value.price) {
      BelowAbove(Inverse(ahead.price), Inverse(o.price), db.debtOrder.value.price);
      assert DebtNotMet(ahead, db.debtOrder, db.p, None);
    }
    if db.feed.Some? && MeetsCalls(o, db.p, db.feed.value) {
      BelowAbove(db.feed.value.CallOrderPrice(), o.price, ahead.price);
      assert MeetsCalls(ahead, db.p, db.feed.value);
    }
  }

  /** The order selling settled debt is ahead of `o` in the book; of two orders at the same price the older is, as `older` says. */
  predicate DebtAhead(o: LimitOrder, debt: Option<DebtOrder>, p: Params, older: bool) {
    debt.Some? && OnSide(o, p.backing, p.mia) && (Less(o.price, debt.value.price) || (older && AtMost(o.price, debt.value.price)))
  }

  /** Nor does an order behind the settled debt meet anything. */
  lemma BehindDebtIsWellMatched(db: Ledger, id: nat, older: bool)
    requires db.p.Valid() && CallsOpen(db) && FeedValid(db)
    requires id in db.orders && DebtAhead(db.orders[id], db.debtOrder, db.p, older) && WellMatched(db, Some(id))
    ensures WellMatched(db, None)
  {
    var o, debt := db.orders[id], db.debtOrder.value;
    forall i, k | i in db.orders && k in db.orders ensures !Cross(db.orders[i], db.orders[k]) {
      CrossSymmetric(db.orders[i], db.orders[k]);
      var other := if i == id then k else i;
      assert other != id ==> DebtNotMet(db.orders[other], db.debtOrder, db.p, None);
      if (i == id || k == id) && Cross(o, db.orders[other]) {
        CrossSymmetric(o, db.orders[other]);
        BelowAbove(Inverse(db.orders[other].price), o.price, debt.price);
      }
    }
  }

  /** After matching, the other orders meet no more than before, and what is left of the new one meets nothing. */
  lemma ShrunkIsServed(before: map<nat, LimitOrder>, after: map<nat, LimitOrder>, id: nat, p: Params, feed: Option<Feed>,
                       calls: map<Account, Position>, callsAfter: map<Account, Position>)
    requires (forall x :: x in calls ==> Open(calls[x])) && (forall x :: x in callsAfter ==> Open(callsAfter[x]))
    requires (feed.Some? ==> feed.value.Valid()) && FewerOrders(after, before) && CallsServed(before, calls, feed, p, Some(id))
    requires feed.Some? && NoneCalled(feed.value, calls) ==> callsAfter == calls
    requires id in after && feed.Some? && MeetsCalls(after[id], p, feed.value) ==> NoneCalled(feed.value, callsAfter)
    ensures CallsServed(after, callsAfter, feed, p, None)
  {
    forall i | i in after && feed.Some? && MeetsCalls(after[i], p, feed.value) ensures NoneCalled(feed.value, callsAfter) {
      if i != id { assert MeetsCalls(before[i], p, feed.value); }
    }
  }

  lemma ShrunkIsUnmet(before: map<nat, LimitOrder>, after: map<nat, LimitOrder>, id: nat, p: Params,
                      debt: Option<DebtOrder>, debtAfter: Option<DebtOrder>)
    requires FewerOrders(after, before) && DebtUnmet(before, debt, p, Some(id)) && SameDebtPrice(debt, debtAfter)
    requires id in after ==> DebtNotMet(after[id], debtAfter, p, None)
    ensures DebtUnmet(after, debtAfter, p, None)
  {
    forall i | i in after ensures DebtNotMet(after[i], debtAfter, p, None) {
      if i != id { assert DebtNotMet(before[i], debt, p, None); }
    }
  }

  /**
   * Places a new or changed order into the market.  It is matched with everything that
   * meets its price, best first: the better part of the book, the margin calls, the rest
   * of the book.  What is then left of it stays in the book unless it is dust.  If nothing
   * else met anything before, nothing does afterwards; there is no dust; all invariants
   * are kept and nothing is created or lost.  An order that meets no margin calls never
   * fails, and one that does only where the least collateralized position cannot pay or
   * nothing of it is to be covered.
   */
  method ApplyOrder(db: Ledger, id: nat) returns (status: Status, gone: bool)
    requires Valid(db) && id in db.orders && NoOtherDust(db, id) && db.orders[id].ToReceive() > 0
    modifies db
    ensures Valid(db) && forall b :: db.Net(b) == old(db.Net(b))
    ensures NoLess(old(db.balances), db.balances)
    ensures status == Done ==> NoDust(db)
    ensures status == Done && old(db.response) != NoSettlement ==> (gone <==> id !in db.orders)
    ensures status == Done && old(db.response != NoSettlement && WellMatched(db, Some(id))) ==> WellMatched(db, None)
    ensures old(NothingFails(db)) ==> status == Done
    ensures old(MeetsNoCalls(db, id)) ==> status == Done
    ensures status != Done ==> db.swan.None? && db.feed.Some? && OrderFailed(db, status)
  {
    hide Ledger.Net, Ledger.CoreGap, Ledger.TotalDebt, Ledger.DebtGap, AtMost, Less, ToQuote, DivDown, WellMatched, NoneMeets, AllExact, AllPay, StuckOn,
         TakingFailed, MeetsCalls;
    if exists j :: j in db.orders && j != id && Ahead(db.orders, j, id) {
      ghost var j :| j in db.orders && j != id && Ahead(db.orders, j, id);
      if WellMatched(db, Some(id)) { BehindIsWellMatched(db, j, id); }
      return Done, false;
    }
    var older: bool := *;
    if DebtAhead(db.orders[id], db.debtOrder, db.p, older) {
      if WellMatched(db, Some(id)) { BehindDebtIsWellMatched(db, id, older); }
      return Done, false;
    }
    var feedUpdated;
    status, gone, feedUpdated := MatchAndCull(db, id);
    if status == Done && gone && feedUpdated {
      var called, minPrice;
      status, called, minPrice := CheckCallOrders(db, true, false);
    }
  }

  /** The feed is exact, every position can pay and the swan response leaves prices alone. */
  ghost predicate NothingFails(db: Ledger)
    requires Valid(db)
    reads db
  {
    db.feed.Some? && Smooth(db.feed, db.response, db.calls, db.feed.value.SqueezePrice())
  }

  /** The market is globally settled, there is no feed, or the order would not be matched with margin calls. */
  ghost predicate MeetsNoCalls(db: Ledger, id: nat)
    requires FeedValid(db) && id in db.orders
    reads db
  {
    db.swan.Some? || db.feed.None? || !MeetsCalls(db.orders[id], db.p, db.feed.value)
  }

  /** The match with a called position failed, or the margin calls looked for after the feed has moved are stuck. */
  ghost predicate OrderFailed(db: Ledger, status: Status)
    requires CallsOpen(db) && FeedValid(db) && db.feed.Some?
    reads db
  {
    || TakingFailed(status, db.feed.value, db.response, db.calls)
    || (status == Stuck && db.response == NoSettlement && exists best, minPrice :: StuckOn(db, best, minPrice, false))
  }

  method MatchAndCull(db: Ledger, id: nat) returns (status: Status, gone: bool, feedUpdated: bool)
    requires Valid(db) && id in db.orders && NoOtherDust(db, id)
    modifies db
    ensures Valid(db) && forall b :: db.Net(b) == old(db.Net(b))
    ensures NoLess(old(db.balances), db.balances)
    ensures status == Done ==> NoDust(db) && (gone <==> id !in db.orders)
    ensures feedUpdated ==> old(db.response) == NoSettlement && db.response == NoSettlement
    ensures status == Done && old(db.response != NoSettlement && WellMatched(db, Some(id))) ==> WellMatched(db, None)
    ensures old(NothingFails(db)) ==> status == Done
    ensures old(MeetsNoCalls(db, id)) ==> status == Done && !feedUpdated
    ensures status != Done ==> db.swan.None? && db.feed.Some? && TakingFailed(status, db.feed.value, db.response, db.calls)
  {
    hide Ledger.Net, Ledger.CoreGap, Ledger.TotalDebt, Ledger.DebtGap, AtMost, Less, ToQuote, DivDown, Uncrossed, NothingFails, MeetsNoCalls, TakingFailed, NoneMeets, NoneCalled, DebtNotMet, MeetsCalls,
         CallsServed, DebtUnmet, SameDebtPrice, Solvent, SettlesValid, OrdersValid, CoreExact, PoolValid;
    ghost var before, calls, debt := db.orders, db.calls, db.debtOrder;
    gone := false;
    status, feedUpdated := MatchAll(db, id);
    if status == Done {
      gone := id !in db.orders;
      if !gone {
        gone := Cull(db, id);
      }
      if db.response != NoSettlement && old(WellMatched(db, Some(id))) {
        ShrunkIsUncrossed(before, db.orders, id);
        ShrunkIsUnmet(before, db.orders, id, db.p, debt, db.debtOrder);
        if db.swan.None? {
          ShrunkIsServed(before, db.orders, id, db.p, db.feed, calls, db.calls);
        }
      }
    }
  }

  method Cull(db: Ledger, id: nat) returns (culled: bool)
    requires Valid(db) && id in db.orders && NoOtherDust(db, id)
    modifies db
    ensures Valid(db) && NoDust(db) && forall b :: db.Net(b) == old(db.Net(b))
    ensures NoLess(old(db.balances), db.balances)
    ensures culled == old(db.orders[id].ToReceive() == 0)
    ensures db.orders == if culled then old(db.orders) - {id} else old(db.orders)
    ensures BookOnly(db, old(db.calls), old(db.settles), old(db.feed), old(db.response), old(db.swan)) && db.debtOrder == old(db.debtOrder)
  {
    hide Ledger.Net, Ledger.CoreGap, Ledger.TotalDebt, Ledger.DebtGap;
    culled := db.MaybeCullSmallOrder(id);
  }

  /** The book above the margin calls, the margin calls, and the rest of the book. */
  method MatchAll(db: Ledger, id: nat) returns (status: Status, feedUpdated: bool)
    requires Valid(db) && id in db.orders && NoOtherDust(db, id)
    modifies db
    ensures Valid(db) && NoOtherDust(db, id) && forall b :: db.Net(b) == old(db.Net(b))
    ensures NoLess(old(db.balances), db.balances)
    ensures FewerOrders(db.orders, old(db.orders)) && db.response == old(db.response)
    ensures feedUpdated ==> db.response == NoSettlement
    ensures db.response != NoSettlement ==> db.feed == old(db.feed)
    ensures db.swan == old(db.swan) && SameDebtPrice(old(db.debtOrder), db.debtOrder)
    ensures status == Done && id in db.orders && db.response != NoSettlement
            ==> db.orders[id].ToReceive() == 0
                || (NoneMeets(db.orders, db.orders[id], None) && DebtNotMet(db.orders[id], db.debtOrder, db.p, None))
    ensures status == Done && id in db.orders && db.response != NoSettlement && db.swan.None? && db.feed.Some?
            && MeetsCalls(db.orders[id], db.p, db.feed.value)
            ==> db.orders[id].ToReceive() == 0 || NoneCalled(db.feed.value, db.calls)
    ensures db.feed.Some? && old(db.feed.Some? && NoneCalled(db.feed.value, db.calls)) ==> db.calls == old(db.calls)
    ensures old(NothingFails(db)) ==> status == Done
    ensures old(MeetsNoCalls(db, id)) ==> status == Done && !feedUpdated
    ensures status != Done ==> db.swan.None? && db.feed.Some? && TakingFailed(status, db.feed.value, db.response, db.calls)
  {
    hide Ledger.Net, Ledger.CoreGap, Ledger.TotalDebt, Ledger.DebtGap, AtMost, Less, ToQuote, DivDown, NoneMeets, NoneCalled, TakingFailed, AllExact, AllPay, DebtNotMet,
         Feed.CallOrderPrice, Feed.SqueezePrice, Solvent, SettlesValid, OrdersValid, CoreExact, PoolValid;
    var finished := false;
    var oldFeed := db.feed;
    status := Done;
    if db.swan.None? && db.feed.Some? && MeetsCalls(db.orders[id], db.p, db.feed.value) {
      finished := MatchBook(db, id, Some(Inverse(db.feed.value.CallOrderPrice())));
      if !finished {
        status, finished := MatchCalls(db, id);
      }
    }
    feedUpdated := db.response == NoSettlement && db.feed != oldFeed;
    if status == Done && !finished {
      finished := MatchBook(db, id, None);
    }
  }
}
