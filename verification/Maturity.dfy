/**
 * Settle orders that have reached their date are matched with the least collateralized
 * positions at the feed price less an offset, as far as the volume limit allows.
 */
module Maturity {
  import opened Wrappers
  import opened Prices
  import opened PriceScale
  import opened MaxDebt
  import opened Sums
  import opened SettleMatch
  import opened Feeds
  import opened Ledger
  import opened Market
  import opened Finders
  import opened MarginCalls

  /** The most that may be settled before the next maintenance, counting what has been settled since the last. */
  function MaxVolume(percent: Percent, supply: nat, settled: nat): (r: nat)
    ensures r <= supply + settled
  {
    Cut(supply + settled, percent)
  }

  /** `Unpayable`: the position does not have the collateral that the price asks for. */
  datatype MatureResult = Covered | Dropped | NothingMore | Unpayable

  /** Nothing that the next match depends on has changed. */
  ghost predicate Untouched(db: Ledger, calls: map<Account, Position>, settles: map<nat, SettleOrder>, feed: Option<Feed>)
    reads db
  {
    db.calls == calls && db.settles == settles && db.feed == feed
  }

  /** One settle order and one position. */
  method MatchMature(db: Ledger, id: nat, x: Account, limit: nat, price: Price) returns (r: MatureResult, covers: nat)
    requires Valid(db) && db.swan.None? && db.feed.Some? && id in db.settles && x in db.calls && limit > 0
    modifies db
    ensures Valid(db) && forall b :: db.Net(b) == old(db.Net(b))
    ensures NoLess(old(db.balances), db.balances)
    ensures db.orders == old(db.orders) && db.swan.None? && db.feed.Some? && db.response == old(db.response)
    ensures db.response != NoSettlement ==> db.feed == old(db.feed)
    ensures r == Covered ==> 0 < covers <= limit && db.TotalDebt() == old(db.TotalDebt()) - covers
    ensures r != Covered ==> covers == 0
    ensures r == Covered && id in db.settles ==> db.settles[id].balance == old(db.settles[id].balance) - covers
    ensures r == Covered ==> db.settles - {id} == old(db.settles) - {id}
    ensures r == Covered && id in db.settles ==> db.settles[id].date == old(db.settles[id].date)
    ensures r == Dropped ==> Untouched(db, old(db.calls), old(db.settles) - {id}, old(db.feed))
    ensures r == NothingMore || r == Unpayable ==> Untouched(db, old(db.calls), old(db.settles), old(db.feed))
    ensures r == NothingMore ==> ToQuote(limit, price) == 0
    ensures r == Unpayable ==> IsSwan(old(db.calls[x]), price)
    ensures old(AllPay(db.calls, price)) ==> r != Unpayable && AllPay(db.calls, price)
  {
    hide Ledger.Net, Ledger.CoreGap, Ledger.TotalDebt, Ledger.DebtGap, NoLess, Credited, Ledger.SettleProceeds, AtMost, ToQuote, ToQuoteUp,
         RatioKept, IsSwan, CallsAfter, Solvent, OrdersValid, CoreExact;
    SameIsNoLess(db.balances);
    var c := db.calls[x];
    var o := MatchMaturedSettlement(Request(c, db.settles[id].balance, limit, price, price, 1, 1, false));
    match o
    case SettleCancelled =>
      CancelSettle(db, id);
      return Dropped, 0;
    case NothingDone =>
      return NothingMore, 0;
    case Settled(callPays, covered, _, _, _, _) =>
      if !IsSwan(c, price) { CanPayIt(c, covered, callPays, price); }
      if callPays > c.collateral || (covered < c.debt && callPays == c.collateral) { return Unpayable, 0; }
      if AllPay(db.calls, price) { AllStillPay(db.calls, x, callPays, covered, price); }
      FillMature(db, id, x, o);
      return Covered, covered;
  }

  method FillMature(db: Ledger, id: nat, x: Account, o: Outcome)
    requires Valid(db) && db.swan.None? && db.feed.Some? && id in db.settles && x in db.calls && o.Settled?
    requires 0 < o.covers <= db.settles[id].balance && o.covers <= db.calls[x].debt
    requires o.settleReceives <= o.callPays <= db.calls[x].collateral
    requires o.covers < db.calls[x].debt ==> o.callPays < db.calls[x].collateral
    modifies db
    ensures Valid(db) && forall b :: db.Net(b) == old(db.Net(b))
    ensures NoLess(old(db.balances), db.balances)
    ensures db.orders == old(db.orders) && db.swan.None? && db.feed.Some? && db.response == old(db.response)
    ensures db.response != NoSettlement ==> db.feed == old(db.feed)
    ensures db.TotalDebt() == old(db.TotalDebt()) - o.covers && db.calls == CallsAfter(old(db.calls), x, o.callPays, o.covers)
    ensures id in db.settles ==> db.settles[id].balance == old(db.settles[id].balance) - o.covers
    ensures db.settles - {id} == old(db.settles) - {id} && (id in db.settles ==> db.settles[id].date == old(db.settles[id].date))
  {
    hide Ledger.Net, Ledger.CoreGap, Ledger.TotalDebt, Ledger.DebtGap, NoLess, Credited, Ledger.SettleProceeds, Solvent, OrdersValid, CoreExact,
         CallsAfter;
    FillSettleAndCall(db, id, x, o, false, true);
    if db.response == NoSettlement {
      UpdateCurrentFeed(db);
    }
  }

  /** A position that can pay the price keeps its ratio, and some collateral if it keeps some debt. */
  lemma CanPayIt(c: Position, covers: nat, pays: nat, price: Price)
    requires Open(c) && covers <= c.debt && !IsSwan(c, price)
    requires AtMost(Pair(c.debt, c.collateral), price) ==> pays <= c.collateral && (covers < c.debt ==> RatioKept(c, covers, pays))
    ensures pays <= c.collateral && (covers < c.debt ==> pays < c.collateral && RatioKept(c, covers, pays))
  {
    if covers < c.debt {
      MulStrict(covers, c.debt, c.collateral);
      MulCancelStrict(pays, c.collateral, c.debt);
    }
  }

  /** The order is smaller than it was or gone; the others are the same. */
  ghost predicate OnlyUsed(settles: map<nat, SettleOrder>, before: map<nat, SettleOrder>, id: nat)
    requires id in before
  {
    settles - {id} == before - {id} && (id in settles ==> settles[id].date == before[id].date)
  }

  /**
   * Matches one order until it is used up, the volume is, or what is left of the volume is
   * too small to be worth anything.
   */
  method SettleMature(db: Ledger, id: nat, price: Price, volume: nat, settled: nat) returns (status: Status, total: nat, finished: bool)
    requires Valid(db) && db.swan.None? && db.feed.Some? && id in db.settles && settled < volume
    modifies db
    ensures Valid(db) && forall b :: db.Net(b) == old(db.Net(b))
    ensures NoLess(old(db.balances), db.balances)
    ensures db.orders == old(db.orders) && db.swan.None? && db.feed.Some? && OnlyUsed(db.settles, old(db.settles), id)
    ensures settled <= total <= volume && db.TotalDebt() == old(db.TotalDebt()) - (total - settled)
    ensures finished ==> total < volume && ToQuote(volume - total, price) == 0
    ensures status == Done || status == Rejected
    ensures status == Done ==> id !in db.settles || total == volume || finished
    ensures old(AllPay(db.calls, price)) ==> status == Done && AllPay(db.calls, price)
  {
    hide Ledger.Net, Ledger.CoreGap, Ledger.TotalDebt, Ledger.DebtGap, AtMost, ToQuote, Solvent, OrdersValid, CoreExact, PoolValid, AllPay;
    total, finished := settled, false;
    while total < volume && id in db.settles
      invariant Valid(db) && db.swan.None? && db.feed.Some? && !finished
      invariant forall b :: db.Net(b) == old(db.Net(b))
      invariant NoLess(old(db.balances), db.balances)
      invariant db.orders == old(db.orders) && OnlyUsed(db.settles, old(db.settles), id)
      invariant settled <= total <= volume && db.TotalDebt() == old(db.TotalDebt()) - (total - settled)
      invariant old(AllPay(db.calls, price)) ==> AllPay(db.calls, price)
      decreases if id in db.settles then db.settles[id].balance else 0
    {
      if db.calls == map[] {
        CancelSettle(db, id);
        break;
      }
      LeastExists(db.calls);
      var x :| x in db.calls && IsLeast(db.calls, x);
      var r, covers := MatchMature(db, id, x, volume - total, price);
      match r
      case Covered => total := total + covers;
      case Dropped => break;
      case NothingMore =>
        finished := true;
        break;
      case Unpayable =>
        return Rejected, total, false;
    }
    status := Done;
  }

  /** Settles or, if there is no price to settle at, returns one order that is due. */
  method ProcessDue(db: Ledger, id: nat, cancels: bool, price: Price, volume: nat, settled: nat)
    returns (status: Status, total: nat, finished: bool)
    requires Valid(db) && db.swan.None? && id in db.settles && (!cancels ==> db.feed.Some? && settled < volume)
    modifies db
    ensures Valid(db) && forall b :: db.Net(b) == old(db.Net(b))
    ensures NoLess(old(db.balances), db.balances)
    ensures db.orders == old(db.orders) && db.swan.None? && db.feed.Some? == old(db.feed.Some?) && OnlyUsed(db.settles, old(db.settles), id)
    ensures settled <= total && (total > settled ==> total <= volume) && db.TotalDebt() == old(db.TotalDebt()) - (total - settled)
    ensures finished ==> !cancels && total < volume && ToQuote(volume - total, price) == 0
    ensures status == Done || status == Rejected
    ensures status == Done ==> id !in db.settles || (!cancels && total == volume) || finished
    ensures cancels ==> status == Done && total == settled
    ensures old(AllPay(db.calls, price)) ==> status == Done && AllPay(db.calls, price)
  {
    hide Ledger.Net, Ledger.CoreGap, Ledger.TotalDebt, Ledger.DebtGap, Ledger.SettleProceeds, AtMost, ToQuote, Solvent, OrdersValid, CoreExact,
         PoolValid, AllPay, NoLess, OnlyUsed;
    if cancels {
      ghost var before := db.settles;
      CancelSettle(db, id);
      CancelledIsUsed(before, id);
      return Done, settled, false;
    }
    status, total, finished := SettleMature(db, id, price, volume, settled);
  }

  /** Orders that are no longer there were due, unless the market is globally settled. */
  ghost predicate OnlyDue(settles: map<nat, SettleOrder>, before: map<nat, SettleOrder>, now: nat) {
    && (forall i :: i in settles ==> i in before && settles[i].date == before[i].date)
    && (forall i :: i in before && before[i].date > now ==> i in settles && settles[i] == before[i])
  }

  lemma StillOnlyDue(a: map<nat, SettleOrder>, b: map<nat, SettleOrder>, c: map<nat, SettleOrder>, id: nat, now: nat)
    requires OnlyDue(b, a, now) && id in b && b[id].date <= now && OnlyUsed(c, b, id)
    ensures OnlyDue(c, a, now)
  {
    forall i | i in c ensures i in a && c[i].date == a[i].date {
      if i != id { assert i in c - {id} && (c - {id})[i] == (b - {id})[i]; }
    }
    forall i | i in a && a[i].date > now ensures i in c && c[i] == a[i] {
      assert i in b - {id} && (b - {id})[i] == b[i];
      assert i in c - {id} && (c - {id})[i] == c[i];
    }
  }

  /** The price of a matured order: the feed price less the offset. */
  function MaturePrice(f: Feed, offset: Percent): Price
    requires offset < HUNDRED_PERCENT
  {
    Unscale(f.current, HUNDRED_PERCENT - offset, HUNDRED_PERCENT)
  }

  /** A position that is not called can pay that price. */
  lemma NoneCalledCanPay(f: Feed, calls: map<Account, Position>, offset: Percent)
    requires f.Valid() && (forall x :: x in calls ==> Open(calls[x])) && offset < HUNDRED_PERCENT
    requires AtMost(f.median, f.current) && NoneCalled(f, calls)
    ensures AllPay(calls, MaturePrice(f, offset))
  {
    hide Scale;
    ScaleKeepsSide(f.current, HUNDRED_PERCENT, HUNDRED_PERCENT - offset);
    BelowAbove(f.median, f.current, MaturePrice(f, offset));
    ScaleKeepsSide(Inverse(f.median), f.mcr, RATIO_DENOM);
    forall x | x in calls ensures !IsSwan(calls[x], MaturePrice(f, offset)) {
      BelowAbove(Inverse(f.median), f.Maintenance(), Collateralization(calls[x]));
      BelowAbove(Pair(calls[x].debt, calls[x].collateral), f.median, MaturePrice(f, offset));
    }
  }

  /**
   * Processes the orders that are due, oldest first.  No more is settled than the volume
   * allows, every unit of it retires a unit of debt, and no order that is not due is
   * touched.  Afterwards no order is due, unless the volume is used up or what is left
   * of it is worth nothing.  It cannot fail if every position can pay the price, which is
   * so if none is called, nor if there is no price and the orders are just returned.
   */
  method ClearMatured(db: Ledger, now: nat, offset: Percent, percent: Percent, settled: nat)
    returns (status: Status, total: nat, finished: bool)
    requires Valid(db) && db.swan.None?
    modifies db
    ensures Valid(db) && forall b :: db.Net(b) == old(db.Net(b))
    ensures NoLess(old(db.balances), db.balances)
    ensures db.orders == old(db.orders) && db.swan.None? && OnlyDue(db.settles, old(db.settles), now)
    ensures settled <= total && (total > settled ==> total <= old(VolumeOf(db, percent, settled)))
    ensures db.TotalDebt() == old(db.TotalDebt()) - (total - settled)
    ensures status == Done || status == Rejected
    ensures status == Done ==> finished || total >= old(VolumeOf(db, percent, settled)) || forall i :: i in db.settles ==> db.settles[i].date > now
    ensures old(db.feed.Some?) && offset < HUNDRED_PERCENT && old(AllPay(db.calls, MaturePrice(db.feed.value, offset))) ==> status == Done
    ensures offset < HUNDRED_PERCENT && old(db.feed.Some? && NoneCalled(db.feed.value, db.calls))
            && old(AtMost(db.feed.value.median, db.feed.value.current))
            ==> status == Done
    ensures old(db.feed.None?) || offset == HUNDRED_PERCENT
            ==> status == Done && total == settled && forall i :: i in db.settles ==> db.settles[i].date > now
    ensures finished ==> total < old(VolumeOf(db, percent, settled)) && offset < HUNDRED_PERCENT && old(db.feed.Some?)
                         && ToQuote(old(VolumeOf(db, percent, settled)) - total, MaturePrice(old(db.feed.value), offset)) == 0
  {
    hide Ledger.Net, Ledger.CoreGap, Ledger.TotalDebt, Ledger.DebtGap, AtMost, ToQuote, Solvent, OrdersValid, CoreExact, PoolValid, OnlyUsed, OnlyDue,
         MaturePrice, VolumeOf, AllPay, NoneCalled, BidsValid, SettlesValid, NoLess;
    SameIsNoLess(db.balances);
    total, finished, status := settled, false, Done;
    var volume := VolumeOf(db, percent, settled);
    var cancels := db.feed.None? || offset == HUNDRED_PERCENT;
    var price := if cancels then Pair(1, 1) else MaturePrice(db.feed.value, offset);
    if !cancels && AtMost(db.feed.value.median, db.feed.value.current) && NoneCalled(db.feed.value, db.calls) {
      NoneCalledCanPay(db.feed.value, db.calls, offset);
    }
    NothingCleared(db.settles, now);
    while db.settles != map[]
      invariant Valid(db) && db.swan.None? && status == Done && !finished
      invariant forall b :: db.Net(b) == old(db.Net(b))
      invariant NoLess(old(db.balances), db.balances)
      invariant db.orders == old(db.orders) && OnlyDue(db.settles, old(db.settles), now) && (!cancels ==> db.feed.Some?)
      invariant settled <= total && (total > settled ==> total <= volume)
      invariant db.TotalDebt() == old(db.TotalDebt()) - (total - settled)
      invariant old(AllPay(db.calls, price)) ==> AllPay(db.calls, price)
      invariant cancels ==> total == settled
      decreases |db.settles|
    {
      FirstExists(db.settles);
      var id :| id in db.settles && IsFirst(db.settles, id);
      if db.settles[id].date > now { return; }
      ghost var before, balances := db.settles, db.balances;
      if !cancels && total >= volume { return; }
      status, total, finished := ProcessDue(db, id, cancels, price, volume, total);
      NoLessChain(old(db.balances), balances, db.balances);
      StillOnlyDue(old(db.settles), before, db.settles, id, now);
      if status != Done || finished || id in db.settles { return; }
      OneFewerOrder(before, db.settles, id);
    }
  }

  /** Once the market is globally settled, settle orders are returned, due or not. */
  method CancelAll(db: Ledger)
    requires Valid(db)
    modifies db
    ensures Valid(db) && forall b :: db.Net(b) == old(db.Net(b))
    ensures NoLess(old(db.balances), db.balances)
    ensures db.settles == map[] && db.orders == old(db.orders) && db.swan == old(db.swan)
  {
    hide Ledger.Net, Ledger.CoreGap, Ledger.TotalDebt, Ledger.DebtGap;
    while db.settles != map[]
      invariant Valid(db) && db.orders == old(db.orders) && db.swan == old(db.swan)
      invariant forall b :: db.Net(b) == old(db.Net(b))
      invariant NoLess(old(db.balances), db.balances)
      decreases |db.settles|
    {
      ghost var before := db.settles;
      var id :| id in db.settles;
      CancelSettle(db, id);
      CancelledIsUsed(before, id);
      OneFewerOrder(before, db.settles, id);
    }
  }

  /** The volume limit as it stands. */
  function VolumeOf(db: Ledger, percent: Percent, settled: nat): nat
    reads db`supply
  {
    var supply := Get(db.supply, db.p.mia);
    if supply < 0 then 0 else MaxVolume(percent, supply, settled)
  }

  lemma NothingCleared(settles: map<nat, SettleOrder>, now: nat)
    ensures OnlyDue(settles, settles, now)
  {
  }

  lemma CancelledIsUsed(before: map<nat, SettleOrder>, id: nat)
    requires id in before
    ensures OnlyUsed(before - {id}, before, id)
  {
  }

  lemma OneFewerOrder(before: map<nat, SettleOrder>, after: map<nat, SettleOrder>, id: nat)
    requires id in before && id !in after && OnlyUsed(after, before, id)
    ensures |after| < |before|
  {
    assert after - {id} == after;
    assert after.Keys == before.Keys - {id};
  }
}
