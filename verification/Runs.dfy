/** Whole runs of the market: any sequence of operations keeps every invariant. */
module Runs {
  import opened Wrappers
  import opened Prices
  import opened PriceScale
  import opened MaxDebt
  import opened Sums
  import opened Feeds
  import opened Ledger
  import opened Market
  import opened Settlement
  import opened Revival
  import opened MarginCalls
  import opened Finders
  import opened Taking
  import opened SettleTaking
  import opened Maturity

  /** Operations that change the market, as transactions or as part of the chain's own work. */
  datatype Action =
    | NewLimitOrder(id: nat, seller: Account, sells: Asset, wants: Asset, amount: nat, price: Price,
                    coreFee: nat, feeAsset: Asset, feePaid: nat)
    /** By its owner, or by the chain because it expired, which costs the cancellation fee. */
    | CancelOrder(id: nat, byChain: bool)
    | ChangePosition(account: Account, deltaCollateral: int, deltaDebt: int, target: Option<nat>)
    | Settle(id: nat, account: Account, amount: nat, date: nat)
    | CancelSettlement(id: nat)
    | NewBid(account: Account, collateral: nat, debt: nat)
    | NewFeed(feed: Feed)
    | FeedExpires
    /** By the issuer, at a price in debt per collateral. */
    | SettleGlobally(price: Price)
    /** Orders that are due by `now`; `settled` is the volume since the last maintenance. */
    | SettleMatured(now: nat, offset: Percent, percent: Percent, settled: nat)
    | RevivalByBids(ranked: seq<Account>, enough: (nat, nat) -> bool)
    | RevivalByFund(ranked: seq<Account>, issuer: Account)

  /** An aborted operation is undone by the chain; a run of the model ends there. */
  datatype Result = Carried | Declined | Aborted

  /** The account an operation acts for. */
  function Actor(a: Action): Option<Account> {
    match a
    case NewLimitOrder(_, seller, _, _, _, _, _, _, _) => Some(seller)
    case ChangePosition(account, _, _, _) => Some(account)
    case Settle(_, account, _, _) => Some(account)
    case NewBid(account, _, _) => Some(account)
    case _ => None
  }

  /** All accounts a run acts for. */
  ghost function Actors(actions: seq<Action>): set<Option<Account>> {
    set i | 0 <= i < |actions| :: Actor(actions[i])
  }

  /** What holds between operations. */
  ghost predicate AtRest(db: Ledger)
    reads db
  {
    Valid(db) && NoDust(db)
  }

  /**
   * The state in which a market starts: balances add up to the supply of each asset, and there
   * is none of the debt asset yet.
   */
  method Genesis(p: Params, response: Response, balances: map<(Account, Asset), nat>, supply: map<Asset, int>) returns (db: Ledger)
    requires p.Valid() && Get(supply, p.mia) == 0 && forall a :: Sum(balances, InAsset(a)) == Get(supply, a)
    ensures fresh(db) && AtRest(db) && WellMatched(db, None) && (forall a :: db.Net(a) == 0) && db.balances == balances && db.p == p
  {
    hide Ledger.Net, Ledger.CoreGap;
    db := new Ledger(p, response, balances, supply);
  }

  method DoNewLimitOrder(db: Ledger, a: Action) returns (r: Result)
    requires AtRest(db) && a.NewLimitOrder?
    modifies db
    ensures Valid(db) && (forall b :: db.Net(b) == old(db.Net(b))) && (r != Aborted ==> NoDust(db))
    ensures OnlyFrom(old(db.balances), db.balances, Some(a.seller))
  {
    hide Ledger.Net, Ledger.CoreGap, Ledger.TotalDebt, Ledger.DebtGap, ToQuote;
    if a.id in db.orders || a.sells == a.wants || ToQuote(a.amount, a.price) == 0 || a.amount == 0 { return Declined; }
    var ok := PlaceLimitOrder(db, a.id, a.seller, a.sells, a.wants, a.amount, a.price, a.coreFee, a.feeAsset, a.feePaid);
    if !ok { return Declined; }
    var status, gone := ApplyOrder(db, a.id);
    r := if status == Done then Carried else Aborted;
  }

  method DoCancelOrder(db: Ledger, id: nat, byChain: bool) returns (r: Result)
    requires AtRest(db)
    modifies db
    ensures AtRest(db) && forall b :: db.Net(b) == old(db.Net(b))
    ensures NoLess(old(db.balances), db.balances)
  {
    hide Ledger.Net, Ledger.CoreGap, Ledger.TotalDebt, Ledger.DebtGap;
    if id !in db.orders { return Declined; }
    db.CancelLimitOrder(id, byChain);
    r := Carried;
  }

  /** Caps the price of the feed if the market has to; nothing else changes. */
  method CapFeed(db: Ledger)
    requires AtRest(db)
    modifies db`feed
    ensures AtRest(db) && forall b :: db.Net(b) == old(db.Net(b))
    ensures FeedUpdated(old(db.feed), db.feed, db.response, db.calls, db.pool)
  {
    hide Ledger.Net, Ledger.CoreGap, Ledger.TotalDebt, Ledger.DebtGap, Solvent, SettlesValid, OrdersValid, CoreExact;
    UpdateCurrentFeed(db);
  }

  /** The change leaves an existing position with no more debt and with more collateral per debt. */
  predicate Improves(calls: map<Account, Position>, x: Account, deltaCollateral: int, deltaDebt: int) {
    && x in calls && deltaDebt <= 0 && Open(calls[x])
    && calls[x].collateral + deltaCollateral > 0 && calls[x].debt + deltaDebt > 0
    && Less(Collateralization(calls[x]), Pair(calls[x].collateral + deltaCollateral, calls[x].debt + deltaDebt))
  }

  /** An account may leave such a position behind: an improved one, or one above the initial ratio. */
  predicate Acceptable(f: Feed, c: Position, improved: bool)
    requires f.Valid() && Open(c)
  {
    improved || Less(f.Initial(), Collateralization(c))
  }

  /** Such a position can pay the squeeze price of the median feed. */
  predicate AboveWater(f: Feed, c: Position)
    requires f.Valid() && Open(c)
  {
    AtMost(Inverse(Scale(f.median, RATIO_DENOM, f.mssr)), Collateralization(c))
  }

  /**
   * Opens, changes or closes a position.  Unless its owner improved it, a position left
   * behind is above the initial ratio.
   */
  method DoChangePosition(db: Ledger, a: Action) returns (r: Result)
    requires AtRest(db) && a.ChangePosition?
    modifies db
    ensures AtRest(db) && forall b :: db.Net(b) == old(db.Net(b))
    ensures OnlyFrom(old(db.balances), db.balances, Some(a.account))
    ensures r == Carried && a.account in db.calls
            ==> db.feed.Some? && Acceptable(db.feed.value, db.calls[a.account],
                                            old(Improves(db.calls, a.account, a.deltaCollateral, a.deltaDebt)))
  {
    hide Ledger.Net, Ledger.CoreGap, Ledger.TotalDebt, Ledger.DebtGap, Swapped, Less;
    var x := a.account;
    var improved := Improves(db.calls, x, a.deltaCollateral, a.deltaDebt);
    var closing := x in db.calls && db.calls[x].debt + a.deltaDebt == 0;
    if db.feed.None? && !closing { return Declined; }
    ghost var balances := db.balances;
    var ok := UpdatePosition(db, x, a.deltaCollateral, a.deltaDebt, a.target);
    if !ok { return Declined; }
    SwapIsOwn(balances, db.balances, x, db.p.backing, a.deltaCollateral, db.p.mia, a.deltaDebt);
    if closing {
      r := AfterClosing(db);
    } else {
      r := AfterUpdate(db, x, improved);
    }
  }

  lemma SwapIsOwn(before: map<(Account, Asset), nat>, after: map<(Account, Asset), nat>, x: Account, gives: Asset, paid: int,
                  gets: Asset, got: int)
    requires Swapped(before, after, x, gives, paid, gets, got)
    ensures OnlyFrom(before, after, Some(x))
  {
  }

  /** Without settlement the price is capped by the least collateralized position, which may have changed. */
  method AfterClosing(db: Ledger) returns (r: Result)
    requires AtRest(db)
    modifies db
    ensures AtRest(db) && forall b :: db.Net(b) == old(db.Net(b))
    ensures NoLess(old(db.balances), db.balances)
    ensures db.swan.None? ==> SameTargets(old(db.calls), db.calls)
  {
    hide Ledger.Net, Ledger.CoreGap, Ledger.TotalDebt, Ledger.DebtGap;
    if db.response == NoSettlement {
      var before := db.feed;
      CapFeed(db);
      if db.feed.Some? && db.feed != before {
        var status, called, minPrice := CheckCallOrders(db, true, false);
        if status != Done { return Aborted; }
      }
    }
    r := Carried;
  }

  /**
   * The checks after a position was opened or changed: it may not be under water, and
   * margin calls may follow, but no black swan.  A position that was not called is still there.
   */
  method AfterUpdate(db: Ledger, x: Account, improved: bool) returns (r: Result)
    requires AtRest(db) && db.swan.None? && db.feed.Some? && x in db.calls
    modifies db
    ensures AtRest(db) && forall b :: db.Net(b) == old(db.Net(b))
    ensures NoLess(old(db.balances), db.balances)
    ensures r == Carried ==> db.swan.None? && db.feed.Some? && (improved || old(AboveWater(db.feed.value, db.calls[x])))
    ensures r == Carried && x in db.calls ==> Acceptable(db.feed.value, db.calls[x], improved)
  {
    hide Ledger.Net, Ledger.CoreGap, Ledger.TotalDebt, Ledger.DebtGap, AtMost, Less, Scale;
    if !improved && !AboveWater(db.feed.value, db.calls[x]) { return Aborted; }
    if db.response == NoSettlement {
      CapFeed(db);
    }
    var status, called, minPrice := CheckCallOrders(db, false, false);
    if status != Done { return Aborted; }
    if !called {
      assert x in db.calls;
    }
    if x in db.calls && !Acceptable(db.feed.value, db.calls[x], improved) { return Aborted; }
    r := Carried;
  }

  /** Redeems debt from the global fund, the individual fund, or by a settle order for the rest. */
  method DoSettle(db: Ledger, a: Action) returns (r: Result)
    requires AtRest(db) && a.Settle?
    modifies db
    ensures AtRest(db) && forall b :: db.Net(b) == old(db.Net(b))
    ensures OnlyFrom(old(db.balances), db.balances, Some(a.account))
  {
    hide Ledger.Net, Ledger.CoreGap, Ledger.TotalDebt, Ledger.DebtGap;
    if a.amount == 0 || a.id in db.settles { return Declined; }
    if db.swan.Some? {
      if Get(db.supply, db.p.mia) < a.amount { return Declined; }
      var ok, paid := RedeemFromSwanFund(db, a.account, a.amount);
      return if ok then Carried else Declined;
    }
    var rest := a.amount;
    if db.response == SettleToFund && db.pool.debt > 0 {
      var paid;
      r, paid := SettleFromPool(db, a.account, a.amount);
      if r != Carried || db.swan.Some? || db.pool.debt > 0 || paid == a.amount { return; }
      rest := rest - paid;
    }
    r := SettleRest(db, a.id, a.account, rest, a.date);
  }

  /** Redeems from the individual fund; once that is empty the price is no longer capped and margin calls may follow. */
  method SettleFromPool(db: Ledger, account: Account, amount: nat) returns (r: Result, paid: nat)
    requires AtRest(db) && db.swan.None? && db.response == SettleToFund && db.pool.debt > 0 && amount > 0
    modifies db
    ensures AtRest(db) && forall b :: db.Net(b) == old(db.Net(b))
    ensures r == Carried ==> paid <= amount
    ensures OnlyFrom(old(db.balances), db.balances, Some(account))
  {
    hide Ledger.Net, Ledger.CoreGap, Ledger.TotalDebt, Ledger.DebtGap;
    var ok;
    ok, paid := RedeemFromPool(db, account, amount);
    if !ok { return Declined, paid; }
    var before := db.feed;
    CapFeed(db);
    if db.pool.debt == 0 && db.feed != before {
      var status, called, minPrice := CheckCallOrders(db, true, false);
      if status != Done { return Aborted, paid; }
    }
    r := Carried;
  }

  /** Places a settle order for what no fund has paid, if there is a price to settle at, and matches it with margin calls. */
  method SettleRest(db: Ledger, id: nat, account: Account, rest: nat, date: nat) returns (r: Result)
    requires AtRest(db) && db.swan.None? && rest > 0
    modifies db
    ensures AtRest(db) && forall b :: db.Net(b) == old(db.Net(b))
    ensures OnlyFrom(old(db.balances), db.balances, Some(account))
  {
    hide Ledger.Net, Ledger.CoreGap, Ledger.TotalDebt, Ledger.DebtGap;
    if db.feed.None? { return Carried; }
    if id in db.settles { return Aborted; }
    var ok := PlaceSettleOrder(db, id, account, rest, date);
    if !ok { return Aborted; }
    var status := ApplySettlement(db, id);
    r := if status == Done then Carried else Aborted;
  }

  /** Takes over a feed, caps its price if the market has to, and reprices the settled debt. */
  method RefreshFeed(db: Ledger, f: Feed)
    requires AtRest(db) && f.Valid()
    modifies db
    ensures AtRest(db) && forall b :: db.Net(b) == old(db.Net(b))
    ensures db.balances == old(db.balances)
  {
    hide Ledger.Net, Ledger.CoreGap, Ledger.TotalDebt, Ledger.DebtGap;
    db.SetFeed(f.(current := f.median));
    CapFeed(db);
    if db.debtOrder.Some? {
      UpdateDebtOrder(db);
    }
  }

  method DoNewFeed(db: Ledger, f: Feed) returns (r: Result)
    requires AtRest(db)
    modifies db
    ensures AtRest(db) && forall b :: db.Net(b) == old(db.Net(b))
    ensures NoLess(old(db.balances), db.balances)
  {
    hide Ledger.Net, Ledger.CoreGap, Ledger.TotalDebt, Ledger.DebtGap;
    if !f.Valid() { return Declined; }
    RefreshFeed(db, f);
    var status, called, minPrice := CheckCallOrders(db, true, false);
    r := if status == Done then Carried else Aborted;
  }

  method DoFeedExpires(db: Ledger) returns (r: Result)
    requires AtRest(db)
    modifies db`feed
    ensures AtRest(db) && r == Carried && forall b :: db.Net(b) == old(db.Net(b))
  {
    hide Ledger.Net, Ledger.CoreGap, Ledger.TotalDebt, Ledger.DebtGap;
    db.feed := None;
    r := Carried;
  }

  /** The issuer may settle at any price that every position can pay. */
  method DoSettleGlobally(db: Ledger, price: Price) returns (r: Result)
    requires AtRest(db)
    modifies db
    ensures AtRest(db) && forall b :: db.Net(b) == old(db.Net(b))
    ensures NoLess(old(db.balances), db.balances)
    ensures r == Carried ==> db.swan.Some? && db.calls == map[]
  {
    hide Ledger.Net, Ledger.CoreGap, Ledger.TotalDebt, Ledger.DebtGap, Returned, TermsOf;
    if db.swan.Some? || Get(db.supply, db.p.mia) <= 0 { return Declined; }
    if db.calls != map[] {
      LeastExists(db.calls);
      var x :| x in db.calls && IsLeast(db.calls, x);
      if ToQuote(db.calls[x].debt, price) > db.calls[x].collateral { return Declined; }
    }
    GloballySettle(db, price, false);
    return Carried;
  }

  /** Orders that are due are settled; once the market is globally settled all are returned. */
  method DoSettleMatured(db: Ledger, a: Action) returns (r: Result)
    requires AtRest(db) && a.SettleMatured?
    modifies db
    ensures AtRest(db) && forall b :: db.Net(b) == old(db.Net(b))
    ensures NoLess(old(db.balances), db.balances)
  {
    hide Ledger.Net, Ledger.CoreGap, Ledger.TotalDebt, Ledger.DebtGap, ToQuote, VolumeOf, AllPay, OnlyDue;
    if db.swan.Some? {
      CancelAll(db);
      return Carried;
    }
    var status, total, finished := ClearMatured(db, a.now, a.offset, a.percent, a.settled);
    return if status == Done then Carried else Aborted;
  }

  /** Acceptance of a bid demands some collateral. */
  ghost predicate Sensible(a: Action) {
    a.RevivalByBids? ==> forall d, c :: a.enough(d, c) ==> c > 0
  }

  predicate IsRanking(ranked: seq<Account>, bids: map<Account, Bid>) {
    && (forall x :: x in ranked ==> x in bids) && (forall x :: x in bids ==> x in ranked)
    && (forall i, j :: 0 <= i < j < |ranked| ==> ranked[i] != ranked[j])
  }

  method DoRevival(db: Ledger, a: Action) returns (r: Result)
    requires AtRest(db) && (a.RevivalByBids? || a.RevivalByFund?) && Sensible(a)
    modifies db
    ensures AtRest(db) && forall b :: db.Net(b) == old(db.Net(b))
    ensures NoLess(old(db.balances), db.balances)
  {
    hide Ledger.Net, Ledger.CoreGap, Ledger.TotalDebt, Ledger.DebtGap;
    if db.swan.None? || !IsRanking(a.ranked, db.bids) { return Declined; }
    if a.RevivalByFund? {
      var ok := ReviveByFund(db, a.ranked, a.issuer);
      return if ok then Carried else Declined;
    }
    var revived, n := ProcessBids(db, a.ranked, a.enough);
    return if revived then Carried else Declined;
  }

  method DoOther(db: Ledger, a: Action) returns (r: Result)
    requires AtRest(db) && (a.CancelSettlement? || a.NewBid?)
    modifies db
    ensures AtRest(db) && forall b :: db.Net(b) == old(db.Net(b))
    ensures OnlyFrom(old(db.balances), db.balances, Actor(a))
  {
    hide Ledger.Net, Ledger.CoreGap, Ledger.TotalDebt, Ledger.DebtGap;
    if a.NewBid? {
      var ok := PlaceBid(db, a.account, a.collateral, a.debt);
      return if ok then Carried else Declined;
    }
    if a.id !in db.settles { return Declined; }
    CancelSettle(db, a.id);
    return Carried;
  }

  method Perform(db: Ledger, a: Action) returns (r: Result)
    requires AtRest(db) && Sensible(a)
    modifies db
    ensures Valid(db) && (forall b :: db.Net(b) == old(db.Net(b))) && (r != Aborted ==> NoDust(db))
    ensures OnlyFrom(old(db.balances), db.balances, Actor(a))
  {
    hide Ledger.Net, Ledger.CoreGap, Ledger.TotalDebt, Ledger.DebtGap, Valid, NoDust;
    match a
    case NewLimitOrder(_, _, _, _, _, _, _, _, _) => r := DoNewLimitOrder(db, a);
    case CancelOrder(id, byChain) => r := DoCancelOrder(db, id, byChain);
    case ChangePosition(_, _, _, _) => r := DoChangePosition(db, a);
    case Settle(_, _, _, _) => r := DoSettle(db, a);
    case NewFeed(f) => r := DoNewFeed(db, f);
    case FeedExpires => r := DoFeedExpires(db);
    case SettleGlobally(price) => r := DoSettleGlobally(db, price);
    case SettleMatured(_, _, _, _) => r := DoSettleMatured(db, a);
    case RevivalByBids(_, _) => r := DoRevival(db, a);
    case RevivalByFund(_, _) => r := DoRevival(db, a);
    case _ => r := DoOther(db, a);
  }

  /**
   * After any run no asset has appeared or been lost, the supply of the debt asset is
   * the debt of all positions and of the settled pool, or is covered by the global fund,
   * and every record of core on the books is exact.  Nobody's balance has fallen
   * except by an operation of their own.
   */
  method Run(db: Ledger, actions: seq<Action>) returns (done: nat)
    requires AtRest(db) && forall a :: a in actions ==> Sensible(a)
    modifies db
    ensures Valid(db) && forall b :: db.Net(b) == old(db.Net(b))
    ensures db.swan.None? ==> Get(db.supply, db.p.mia) == db.TotalDebt() + db.pool.debt
    ensures db.swan.Some? ==> Get(db.supply, db.p.mia) * db.swan.value.quote <= db.swanFund * db.swan.value.base
    ensures done <= |actions| && (done == |actions| ==> NoDust(db))
    ensures forall k: (Account, Asset) :: Some(k.0) !in Actors(actions) ==> old(Get(db.balances, k)) <= Get(db.balances, k)
  {
    hide Ledger.Net, Ledger.CoreGap, NoDust, Sensible;
    done := 0;
    while done < |actions|
      invariant 0 <= done <= |actions| && AtRest(db)
      invariant forall b :: db.Net(b) == old(db.Net(b))
      invariant forall k: (Account, Asset) :: Some(k.0) !in Actors(actions) ==> old(Get(db.balances, k)) <= Get(db.balances, k)
    {
      assert Actor(actions[done]) in Actors(actions);
      var r := Perform(db, actions[done]);
      if r == Aborted { return; }
      done := done + 1;
    }
  }

  /**
   * Every state a market can reach from its start: all that is held of any asset, anywhere,
   * is exactly the recorded supply of it.
   */
  method RunFromGenesis(p: Params, response: Response, balances: map<(Account, Asset), nat>, supply: map<Asset, int>,
                        actions: seq<Action>)
    returns (db: Ledger, done: nat)
    requires p.Valid() && Get(supply, p.mia) == 0 && forall a :: Sum(balances, InAsset(a)) == Get(supply, a)
    requires forall a :: a in actions ==> Sensible(a)
    ensures fresh(db) && Valid(db) && forall a :: db.Net(a) == 0
    ensures forall k: (Account, Asset) :: Some(k.0) !in Actors(actions) ==> Get(balances, k) <= Get(db.balances, k)
  {
    hide Ledger.Net, Ledger.CoreGap, Ledger.TotalDebt, Ledger.DebtGap, Sensible;
    db := Genesis(p, response, balances, supply);
    done := Run(db, actions);
  }
}
