/** A new settle order meets the called positions, least collateralized first. */
module SettleTaking {
  import opened Wrappers
  import opened Prices
  import opened MaxDebt
  import opened Feeds
  import opened Ledger
  import opened Market
  import opened Finders
  import opened MarginCalls

  datatype SettleStep = OrderUsed | NoneLeft | Stalled

  /** The market's rules and targets are the same; only amounts have changed. */
  ghost predicate SameRules(db: Ledger, calls: map<Account, Position>, feed: Option<Feed>, response: Response)
    reads db
  {
    db.response == response && SameFeed(feed, db.feed) && SameTargets(calls, db.calls)
  }

  /** Matches the order with the least collateralized position, if that is called. */
  method MatchNext(db: Ledger, id: nat, matchPrice: Price, paysPrice: Price) returns (r: SettleStep)
    requires Valid(db) && db.swan.None? && db.feed.Some? && id in db.settles && AtMost(paysPrice, matchPrice)
    modifies db
    ensures Valid(db) && forall b :: db.Net(b) == old(db.Net(b))
    ensures NoLess(old(db.balances), db.balances)
    ensures db.swan.None? && db.orders == old(db.orders) && SameRules(db, old(db.calls), old(db.feed), old(db.response))
    ensures db.response != NoSettlement ==> db.feed == old(db.feed)
    ensures r == OrderUsed && id in db.settles ==> db.settles[id].balance < old(db.settles[id].balance)
    ensures r == NoneLeft ==> NoneCalled(db.feed.value, db.calls)
    ensures r == Stalled ==> db.feed == old(db.feed) && StuckAt(db.feed.value, db.calls, paysPrice)
    ensures old(AllStuckAt(db.feed.value, db.calls, paysPrice)) ==> r == Stalled
  {
    hide Ledger.Net, Ledger.CoreGap, Ledger.TotalDebt, Ledger.DebtGap, NoLess, AtMost, CoversNone, Called, SameTargets, Solvent, OrdersValid,
         CoreExact, PoolValid, SettlesValid;
    TargetsChain(db.calls, db.calls, db.calls);
    SameIsNoLess(db.balances);
    if db.calls == map[] { return NoneLeft; }
    LeastExists(db.calls);
    var x :| x in db.calls && IsLeast(db.calls, x);
    if AllStuckAt(db.feed.value, db.calls, paysPrice) { AllStuckIsCalled(db.feed.value, db.calls, x, paysPrice); }
    if !Called(db.feed.value, db.calls[x]) {
      NoOtherCalled(db.feed.value, db.calls, x);
      return NoneLeft;
    }
    var m := CoverFromSettle(db, x, id, paysPrice, matchPrice, true);
    r := if m == NoLimit then Stalled else OrderUsed;
  }

  /** Nothing of the least collateralized position is to be covered, by the settle order or in the margin calls looked for in between. */
  ghost predicate SettlementStuck(db: Ledger)
    requires CallsOpen(db) && FeedValid(db) && db.feed.Some?
    reads db
  {
    || (exists g: Feed :: PaidFrom(g, db.feed.value, db.response) && StuckAt(db.feed.value, db.calls, g.SqueezePrice()))
    || (db.response == NoSettlement && exists best, minPrice :: StuckOn(db, best, minPrice, true))
  }

  lemma SettlementStuckIsInexact(db: Ledger)
    requires CallsOpen(db) && FeedValid(db) && db.feed.Some? && SettlementStuck(db)
    ensures !AllExact(db.feed, db.calls)
  {
    if g: Feed :| PaidFrom(g, db.feed.value, db.response) && StuckAt(db.feed.value, db.calls, g.SqueezePrice()) {
      var x :| x in db.calls && IsLeast(db.calls, x) && CoversNone(db.feed.value, db.calls[x], g.SqueezePrice());
      CoversNoneIsInexact(db.feed.value, db.calls[x], g.SqueezePrice());
    } else {
      var best, minPrice :| StuckOn(db, best, minPrice, true);
      StuckIsInexact(db, best, minPrice, true);
    }
  }

  /**
   * Matches a new settle order until it is used up or no position is called.  When the
   * current price moves with each match, other margin calls are looked for in between,
   * and never touch settle orders.  It fails only where it is stuck, which takes rounding,
   * and it does fail where it is stuck from the start.
   */
  method ApplySettlement(db: Ledger, id: nat) returns (status: Status)
    requires Valid(db) && NoDust(db) && db.swan.None? && db.feed.Some? && id in db.settles
    modifies db
    ensures Valid(db) && NoDust(db) && forall b :: db.Net(b) == old(db.Net(b))
    ensures NoLess(old(db.balances), db.balances)
    ensures status == Done && db.swan.None? && id in db.settles
            ==> db.feed.Some? && NoneCalled(db.feed.value, db.calls)
    ensures status != Rejected
    ensures status == Stuck ==> db.swan.None? && db.feed.Some? && SettlementStuck(db) && !AllExact(old(db.feed), old(db.calls))
    ensures old(AllStuckAt(db.feed.value, db.calls, db.feed.value.SqueezePrice())) ==> status == Stuck
  {
    hide Ledger.Net, Ledger.CoreGap, Ledger.TotalDebt, Ledger.DebtGap, AtMost, Less, AllExact, NoneCalled, Feed.CallOrderPrice, Feed.SqueezePrice, SameTargets, Quiet,
         PriceCapped, Solvent, OrdersValid, CoreExact, PoolValid, NoDust, StuckAt, AllStuckAt, StuckOn;
    ghost var calls, feed := db.calls, db.feed;
    TargetsChain(calls, calls, calls);
    FeedsChain(feed, feed, feed);
    SameIsNoLess(db.balances);
    ghost var source := db.feed.value;
    source.FeeIsNotNegative();
    var matchPrice, paysPrice := db.feed.value.CallOrderPrice(), db.feed.value.SqueezePrice();
    var updatePrice := db.response == NoSettlement && PriceCapped(db.feed.value);
    ghost var sticks := AllStuckAt(db.feed.value, db.calls, paysPrice);
    status := Done;
    while id in db.settles
      invariant Valid(db) && NoDust(db) && db.swan.None? && db.feed.Some? && status == Done
      invariant forall b :: db.Net(b) == old(db.Net(b))
      invariant NoLess(old(db.balances), db.balances)
      invariant SameRules(db, calls, feed, old(db.response))
      invariant db.response != NoSettlement ==> db.feed == feed && !updatePrice
      invariant source.Valid() && SameParameters(db.feed.value, source)
      invariant if db.response == NoSettlement && !updatePrice then !PriceCapped(source) else source == db.feed.value
      invariant matchPrice == source.CallOrderPrice() && paysPrice == source.SqueezePrice() && AtMost(paysPrice, matchPrice)
      invariant sticks ==> id in db.settles && AllStuckAt(db.feed.value, db.calls, paysPrice)
      decreases if id in db.settles then db.settles[id].balance else 0
    {
      ghost var between, feedBetween := db.calls, db.feed;
      var r := MatchNext(db, id, matchPrice, paysPrice);
      TargetsChain(calls, between, db.calls);
      FeedsChain(feed, feedBetween, db.feed);
      if r == NoneLeft { return; }
      if r == Stalled {
        assert PaidFrom(source, db.feed.value, db.response);
        status := Stuck;
        break;
      }
      if updatePrice {
        var called, minPrice;
        between, feedBetween := db.calls, db.feed;
        status, called, minPrice := CheckCallOrders(db, true, true);
        if db.swan.Some? { return; }
        TargetsChain(calls, between, db.calls);
        FeedsChain(feed, feedBetween, db.feed);
        if status == Stuck { break; }
        source := db.feed.value;
        source.FeeIsNotNegative();
        matchPrice, paysPrice := db.feed.value.CallOrderPrice(), db.feed.value.SqueezePrice();
        updatePrice := PriceCapped(db.feed.value);
      }
    }
    if status == Stuck {
      SettlementStuckIsInexact(db);
      if AllExact(feed, calls) { StillExact(feed, db.feed, calls, db.calls); }
    }
  }
}
