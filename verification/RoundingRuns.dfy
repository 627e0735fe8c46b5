/**
 * What rounding does to two markets: on one, margin calls get stuck though a limit order meets
 * them; the other, which is not meant to be settled at all, is globally settled.
 */
module RoundingRuns {
  import opened Wrappers
  import opened Prices
  import opened PriceScale
  import opened MaxDebt
  import opened Sums
  import opened SettledDebt
  import opened Feeds
  import opened Ledger
  import opened Market
  import opened Finders
  import opened MarginCalls
  import Revival

  /** The feed of `RoundedFeedCoversNothing`, in debt per collateral and without a margin call fee. */
  function StuckFeed(): (f: Feed)
    ensures f.Valid() && f.CallNumerator() == f.mssr
  {
    var price := Pair(499_999_999_999_999, 999_999_999_999_996);
    Feed(price, price, 1500, 0, 1500, None)
  }

  lemma NothingIsCovered(paysPrice: Price)
    ensures CoversNone(StuckFeed(), Position(300, 100, Some(1500)), paysPrice)
  {
    RoundedFeedCoversNothing(Inverse(paysPrice));
    var f := StuckFeed();
    assert Inverse(f.median) == Pair(999_999_999_999_996, 499_999_999_999_999);
    assert Inverse(Inverse(paysPrice)) == paysPrice;
  }

  lemma OneToOne(x: nat)
    ensures ToQuote(x, Pair(1, 1)) == x
  {
  }

  /** Account 3 owes the whole supply of a hundred, and account 4 offers all of it one to one. */
  method StuckMarket() returns (db: Ledger)
    ensures fresh(db) && Valid(db) && NoDust(db) && db.swan.None? && db.feed == Some(StuckFeed())
    ensures db.calls == map[3 := Position(300, 100, Some(1500))] && db.settles == map[] && db.response == GlobalSettlement
    ensures db.orders == map[0 := LimitOrder(4, db.p.mia, db.p.backing, 100, Pair(1, 1), 0, 0, db.p.mia)]
  {
    hide Ledger.Net, Ledger.CoreGap, Ledger.TotalDebt, Ledger.DebtGap, Revival.ExampleParams, StuckFeed, ToQuote;
    db := new Ledger(Revival.ExampleParams(), GlobalSettlement, map[], map[]);
    db.supply := map[1 := 100, 2 := 300];
    db.calls := map[3 := Position(300, 100, Some(1500))];
    db.orders := map[0 := LimitOrder(4, 1, 2, 100, Pair(1, 1), 0, 0, 1)];
    db.feed := Some(StuckFeed());
    OneToOne(100);
    OnePosition(db, 3, Position(300, 100, Some(1500)));
  }

  /** A single position that owes the whole supply, and no core on the books. */
  lemma OnePosition(db: Ledger, x: Account, c: Position)
    requires db.calls == map[x := c] && db.pool.debt == 0 && Get(db.supply, db.p.mia) == c.debt
    requires db.p.backing != CORE && db.coreInOrders == map[] && forall id :: id in db.orders ==> db.orders[id].sells != CORE
    ensures db.DebtGap() == 0 && CoreExact(db)
  {
    var none: map<Account, Position> := map[];
    SumUpdate(none, x, c, DebtOf());
    assert none[x := c] == db.calls;
    forall y ensures db.CoreGap(y) == 0 { SumOfNothing(db.orders, CoreOnOffer(y)); }
  }

  /** It happens: the position could pay what the order asks for, and the order would be matched, but nothing is to be covered. */
  method StuckExample() returns (db: Ledger, status: Status)
    ensures fresh(db) && Valid(db) && status == Stuck
  {
    db := StuckMarket();
    MarketSticks(db);
    var called, minPrice;
    status, called, minPrice := CheckCallOrders(db, true, false);
  }

  lemma MarketSticks(db: Ledger)
    requires Valid(db) && db.feed == Some(StuckFeed())
    requires db.calls == map[3 := Position(300, 100, Some(1500))] && db.settles == map[] && db.response == GlobalSettlement
    requires db.orders == map[0 := LimitOrder(4, db.p.mia, db.p.backing, 100, Pair(1, 1), 0, 0, db.p.mia)]
    ensures Sticks(db, db.feed.value.CallOrderPrice(), false)
  {
    hide AllStuckAt, AllPay, Feed.CallOrderPrice, AtMost, PaidFor, Highest;
    var f, one := StuckFeed(), Pair(1, 1);
    OrderIsMet(f, one, db.calls);
    forall best | IsBestOption(db.orders, db.p.mia, db.p.backing, best)
      ensures SticksOn(db, best, f.CallOrderPrice(), false) && NoneUnder(db, best)
    {
      assert OnSide(db.orders[0], db.p.mia, db.p.backing);
      assert best == Some(0);
    }
  }

  /** The order is above the price at which margin calls stand, and the position can pay it. */
  lemma OrderIsMet(f: Feed, one: Price, calls: map<Account, Position>)
    requires f == StuckFeed() && one == Pair(1, 1) && calls == map[3 := Position(300, 100, Some(1500))]
    ensures AtMost(f.CallOrderPrice(), one) && AllStuckAt(f, calls, PaidFor(f, one))
    ensures AllPay(calls, Highest(f, GlobalSettlement, Some(one)))
  {
    hide Scale;
    ScaleKeepsSide(f.current, RATIO_DENOM, f.CallNumerator());
    BelowAbove(f.CallOrderPrice(), f.current, one);
    NothingIsCovered(PaidFor(f, one));
    assert 3 in calls && calls[3] == Position(300, 100, Some(1500));
    OneIsPaid(f);
    BelowAbove(Pair(100, 300), one, Highest(f, GlobalSettlement, Some(one)));
  }

  lemma OneIsPaid(f: Feed)
    requires f.Valid() && f.CallNumerator() == f.mssr
    ensures PaidFor(f, Pair(1, 1)) == Pair(1, 1) && AtMost(Pair(1, 1), Highest(f, GlobalSettlement, Some(Pair(1, 1))))
  {
  }

  // A cap that is rounded down

  const DEBT: nat := 333_333_333_333_337

  /** The cap for a position with five units of collateral loses a tenth, and the squeeze price is then below its ratio. */
  lemma CapIsRoundedDown()
    ensures Scale(Pair(DEBT, 5), 1500, RATIO_DENOM) == Pair(100_000_000_000_001, 1)
    ensures Scale(Pair(100_000_000_000_001, 1), RATIO_DENOM, 1500) == Pair(200_000_000_000_002, 3)
  {
    var n, d := DEBT * 1500, 5 * RATIO_DENOM;
    assert Gcd(n, d) == Gcd(d, 500) == Gcd(500, 0) == 500;
    var exact := Pair(1_000_000_000_000_011, 10);
    assert Reduce(n, d) == exact;
    assert Gcd(500_000_000_000_005, 5) == Gcd(5, 0) == 5;
    var cap := Pair(100_000_000_000_001, 1);
    assert Reduce(500_000_000_000_005, 5) == cap;
    assert Shrink(exact) == Shrink(cap) == (cap, false);
    assert DivDown(1_000_000_000_000_011, 10) == 100_000_000_000_001;
    assert Rounded(exact) == cap && Approximate(exact) == cap;
    var n', d' := 100_000_000_000_001 * RATIO_DENOM, 1500;
    assert Gcd(n', d') == Gcd(d', 500) == Gcd(500, 0) == 500;
    assert Reduce(n', d') == Pair(200_000_000_000_002, 3);
  }

  /** A feed of one to one. */
  function EvenFeed(current: Price): (f: Feed)
    ensures f.Valid()
  {
    Feed(Pair(1, 1), current, 1500, 0, 1500, None)
  }

  /** Without settlement, the feed is capped for the position, and no higher. */
  lemma CapOfPosition()
    ensures Refreshed(EvenFeed(Pair(1, 1)), NoSettlement, Some(Position(5, DEBT, None)), 0, 0) == EvenFeed(Pair(100_000_000_000_001, 1))
    ensures IsSwan(Position(5, DEBT, None), Highest(EvenFeed(Pair(100_000_000_000_001, 1)), NoSettlement, None))
  {
    hide Scale;
    CapIsRoundedDown();
  }

  /** Account 4 holds the whole supply, which account 3 owes. */
  method UnsettledMarket() returns (db: Ledger)
    ensures fresh(db) && Valid(db) && NoDust(db) && db.swan.None? && db.feed == Some(EvenFeed(Pair(1, 1)))
    ensures db.calls == map[3 := Position(5, DEBT, None)] && db.settles == map[] && db.response == NoSettlement
    ensures db.orders == map[] && db.pool == Pool(0, 0)
  {
    hide Ledger.Net, Ledger.CoreGap, Ledger.TotalDebt, Ledger.DebtGap, Revival.ExampleParams, EvenFeed;
    db := new Ledger(Revival.ExampleParams(), NoSettlement, map[], map[]);
    db.balances, db.supply := map[(4, 1) := DEBT], map[1 := DEBT, 2 := 5];
    db.calls := map[3 := Position(5, DEBT, None)];
    db.feed := Some(EvenFeed(Pair(1, 1)));
    OnePosition(db, 3, Position(5, DEBT, None));
  }

  /** It happens: the feed is brought up to date, and the market is globally settled, which its response rules out. */
  method SettledAnyway() returns (db: Ledger, response: Response, status: Status)
    ensures fresh(db) && Valid(db) && response == NoSettlement && status == Done && db.swan.Some?
  {
    hide Ledger.Net, Ledger.CoreGap, Ledger.TotalDebt, Ledger.DebtGap, EvenFeed, FeedUpdated, Solvent, CoreExact, OrdersValid, SettlesValid,
         HasSwan, Sticks, AllExact, FailedRightly, Quiet, NoLess;
    db := UnsettledMarket();
    response := db.response;
    UpdateCurrentFeed(db);
    CapIsFound(db);
    var called, minPrice;
    status, called, minPrice := CheckCallOrders(db, true, false);
  }

  lemma CapIsFound(db: Ledger)
    requires Valid(db) && db.calls == map[3 := Position(5, DEBT, None)] && db.settles == map[] && db.orders == map[]
    requires db.response == NoSettlement && db.pool == Pool(0, 0)
    requires FeedUpdated(Some(EvenFeed(Pair(1, 1))), db.feed, NoSettlement, db.calls, db.pool)
    ensures db.feed == Some(EvenFeed(Pair(100_000_000_000_001, 1))) && HasSwan(db)
  {
    hide Scale, Highest, Refreshed;
    CapOfPosition();
    assert 3 in db.calls;
    var x :| x in db.calls && db.feed == Some(Refreshed(EvenFeed(Pair(1, 1)), NoSettlement, Some(db.calls[x]), 0, 0));
    assert IsBestOption(db.orders, db.p.mia, db.p.backing, None);
    assert SwanFound(db, None);
  }
}
