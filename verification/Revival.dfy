/** Ending a global settlement: collateral bids take over the debt, or the fund itself is well enough backed. */
module Revival {
  import opened Wrappers
  import opened Prices
  import opened MaxDebt
  import opened Sums
  import opened SettledDebt
  import opened Feeds
  import opened Ledger
  import opened Market

  /** The debt a bid stands for: never more than the whole supply. */
  function CappedDebt(b: Bid, supply: nat): nat {
    if b.debt > supply then supply else b.debt
  }

  /** Debt stood for by the first `k` bids. */
  function Covered(bids: map<Account, Bid>, ranked: seq<Account>, supply: nat, k: nat): nat
    requires k <= |ranked| && forall x :: x in ranked ==> x in bids
  {
    if k == 0 then 0
    else Covered(bids, ranked, supply, k - 1) + CappedDebt(bids[ranked[k - 1]], supply)
  }

  /** Fund collateral handed to the first `k` bids when each gets its full share. */
  function Shares(bids: map<Account, Bid>, ranked: seq<Account>, supply: nat, s: Price, k: nat): nat
    requires k <= |ranked| && forall x :: x in ranked ==> x in bids
  {
    if k == 0 then 0
    else Shares(bids, ranked, supply, s, k - 1) + ToQuote(CappedDebt(bids[ranked[k - 1]], supply), s)
  }

  /** The fund covers the shares of any bids that stand for less than the supply, and the rest still backs the rest. */
  lemma {:induction false} SharesAreCovered(bids: map<Account, Bid>, ranked: seq<Account>, supply: nat, fund: nat, s: Price, k: nat)
    requires k <= |ranked| && forall x :: x in ranked ==> x in bids
    requires supply * s.quote <= fund * s.base
    requires Covered(bids, ranked, supply, k) <= supply
    ensures Shares(bids, ranked, supply, s, k) <= fund
    ensures (supply - Covered(bids, ranked, supply, k)) * s.quote <= (fund - Shares(bids, ranked, supply, s, k)) * s.base
  {
    if k > 0 {
      SharesAreCovered(bids, ranked, supply, fund, s, k - 1);
      var d := CappedDebt(bids[ranked[k - 1]], supply);
      var rest := supply - Covered(bids, ranked, supply, k - 1);
      var left := fund - Shares(bids, ranked, supply, s, k - 1);
      MulMono(d, rest, s.quote);
      MulCancel(ToQuote(d, s), left, s.base);
      TakeBoth(s.quote, s.base, rest, left, d, ToQuote(d, s));
    }
  }

  /** The first `m` bids are all acceptable and stand for the whole supply. */
  ghost predicate Suffices(bids: map<Account, Bid>, ranked: seq<Account>, supply: nat, s: Price, enough: (nat, nat) -> bool, m: nat)
    requires forall x :: x in ranked ==> x in bids
  {
    && m <= |ranked| && (forall k :: 0 <= k < m ==> Accepted(bids[ranked[k]], supply, s, enough))
    && Covered(bids, ranked, supply, m) >= supply
  }

  /** If the first pass stops short of the supply, no number of bids suffices. */
  lemma NoneSuffices(bids: map<Account, Bid>, ranked: seq<Account>, supply: nat, s: Price, enough: (nat, nat) -> bool, n: nat, m: nat)
    requires (forall x :: x in ranked ==> x in bids) && n <= |ranked|
    requires Covered(bids, ranked, supply, n) < supply
    requires n < |ranked| ==> !Accepted(bids[ranked[n]], supply, s, enough)
    ensures !Suffices(bids, ranked, supply, s, enough, m)
  {
    if m <= n { CoveredMono(bids, ranked, supply, m, n); }
  }

  /** The ranking lists every bid once. */
  ghost predicate Ranks(ranked: seq<Account>, bids: map<Account, Bid>) {
    && (forall x :: x in ranked <==> x in bids)
    && (forall i, j :: 0 <= i < j < |ranked| ==> ranked[i] != ranked[j])
  }

  /**
   * The first pass: how many of the best bids are needed.  They are all acceptable,
   * only the last of them reaches the supply, and fewer than needed means not enough.
   */
  method CountNeeded(bids: map<Account, Bid>, ranked: seq<Account>, supply: nat, s: Price, enough: (nat, nat) -> bool)
    returns (ok: bool, n: nat)
    requires Ranks(ranked, bids) && supply > 0
    ensures n <= |ranked|
    ensures ok <==> Covered(bids, ranked, supply, n) >= supply
    ensures ok <==> exists m: nat :: Suffices(bids, ranked, supply, s, enough, m)
    ensures ok ==> n > 0 && Covered(bids, ranked, supply, n - 1) < supply
    ensures forall k :: 0 <= k < n ==> Accepted(bids[ranked[k]], supply, s, enough)
    ensures !ok && n < |ranked| ==> !Accepted(bids[ranked[n]], supply, s, enough)
  {
    var covered := 0;
    n := 0;
    while covered < supply && n < |ranked|
      invariant n <= |ranked| && covered == Covered(bids, ranked, supply, n)
      invariant covered >= supply ==> n > 0 && Covered(bids, ranked, supply, n - 1) < supply
      invariant forall k :: 0 <= k < n ==> Accepted(bids[ranked[k]], supply, s, enough)
    {
      if !Accepted(bids[ranked[n]], supply, s, enough) { break; }
      covered := covered + CappedDebt(bids[ranked[n]], supply);
      n := n + 1;
    }
    ok := covered >= supply;
    if ok {
      assert Suffices(bids, ranked, supply, s, enough, n);
    } else {
      forall m: nat ensures !Suffices(bids, ranked, supply, s, enough, m) {
        NoneSuffices(bids, ranked, supply, s, enough, n, m);
      }
    }
  }

  /** A bid with its share of the fund is sufficiently collateralized. */
  predicate Accepted(b: Bid, supply: nat, s: Price, enough: (nat, nat) -> bool) {
    var d := CappedDebt(b, supply);
    enough(d, ToQuote(d, s) + b.collateral)
  }

  lemma {:induction false} CoveredMono(bids: map<Account, Bid>, ranked: seq<Account>, supply: nat, j: nat, k: nat)
    requires j <= k <= |ranked| && forall x :: x in ranked ==> x in bids
    ensures Covered(bids, ranked, supply, j) <= Covered(bids, ranked, supply, k)
    decreases k
  {
    if j < k { CoveredMono(bids, ranked, supply, j, k - 1); }
  }

  /** The position a bid turns into. */
  function Taken(bids: map<Account, Bid>, ranked: seq<Account>, supply: nat, fund: nat, s: Price, n: nat, k: nat): Position
    requires k < n <= |ranked| && forall x :: x in ranked ==> x in bids
    requires Covered(bids, ranked, supply, n - 1) < supply && Shares(bids, ranked, supply, s, n - 1) <= fund
  {
    var b := bids[ranked[k]];
    if k < n - 1 then Position(b.collateral + ToQuote(CappedDebt(b, supply), s), CappedDebt(b, supply), None)
    else Position(b.collateral + (fund - Shares(bids, ranked, supply, s, n - 1)),
                  supply - Covered(bids, ranked, supply, n - 1), None)
  }

  /** The last bid, which may get less debt than it stood for, is collateralized at least as well as when accepted. */
  lemma LastIsNoWorse(bids: map<Account, Bid>, ranked: seq<Account>, supply: nat, fund: nat, s: Price, n: nat)
    requires 0 < n <= |ranked| && forall x :: x in ranked ==> x in bids
    requires supply * s.quote <= fund * s.base
    requires Covered(bids, ranked, supply, n - 1) < supply <= Covered(bids, ranked, supply, n)
    ensures Shares(bids, ranked, supply, s, n - 1) <= fund
    ensures var b := bids[ranked[n - 1]];
            var d := CappedDebt(b, supply);
            var taken := Taken(bids, ranked, supply, fund, s, n, n - 1);
            && 0 < taken.debt <= d && taken.collateral > 0
            && (ToQuote(d, s) + b.collateral) * taken.debt <= taken.collateral * d
  {
    SharesAreCovered(bids, ranked, supply, fund, s, n - 1);
    var b := bids[ranked[n - 1]];
    var d := CappedDebt(b, supply);
    var debt := supply - Covered(bids, ranked, supply, n - 1);
    var left := fund - Shares(bids, ranked, supply, s, n - 1);
    NoWorse(d, b.collateral, debt, left, s);
  }

  /** At least a proportional part of the fund, with the same own collateral and no more debt, is no worse a ratio. */
  lemma NoWorse(d: nat, own: nat, debt: nat, left: nat, s: Price)
    requires 0 < debt <= d && debt * s.quote <= left * s.base
    ensures left > 0 && (ToQuote(d, s) + own) * debt <= (own + left) * d
  {
    MulStrict(0, debt, s.quote);
    MulCancelStrict(0, left, s.base);
    Proportional(ToQuote(d, s), d, left, debt, s);
    AddOwn(ToQuote(d, s), d, left, debt, own);
  }

  lemma AddOwn(share: nat, d: nat, left: nat, debt: nat, own: nat)
    requires share * debt <= left * d && debt <= d
    ensures (share + own) * debt <= (own + left) * d
  {
    MulMono(debt, d, own);
    assert (share + own) * debt == share * debt + own * debt;
    assert (own + left) * d == own * d + left * d;
  }

  lemma Proportional(share: nat, d: nat, left: nat, debt: nat, s: Price)
    requires share * s.base <= d * s.quote && debt * s.quote <= left * s.base
    ensures share * debt <= left * d
  {
    MulMono(share * s.base, d * s.quote, debt);
    MulMono(debt * s.quote, left * s.base, d);
    Comm3(share, s.base, debt);
    Comm3(d, s.quote, debt);
    Comm3(debt, s.quote, d);
    Comm3(left, s.base, d);
    assert d * s.quote * debt == debt * s.quote * d by { Comm3(d, debt, s.quote); }
    MulCancel(share * debt, left * d, s.base);
  }

  /** Everything the bids are turned into. */
  ghost predicate IsPlan(bids: map<Account, Bid>, ranked: seq<Account>, supply: nat, fund: nat, s: Price, n: nat) {
    && 0 < n <= |ranked| && (forall x :: x in ranked ==> x in bids)
    && Covered(bids, ranked, supply, n - 1) < supply <= Covered(bids, ranked, supply, n)
    && Shares(bids, ranked, supply, s, n - 1) <= fund
    && (forall k :: 0 <= k < n ==> Open(Taken(bids, ranked, supply, fund, s, n, k)))
  }

  lemma PlanExists(bids: map<Account, Bid>, ranked: seq<Account>, supply: nat, fund: nat, s: Price, n: nat,
                   enough: (nat, nat) -> bool)
    requires 0 < n <= |ranked| && forall x :: x in ranked ==> x in bids
    requires supply > 0 && supply * s.quote <= fund * s.base
    requires Covered(bids, ranked, supply, n - 1) < supply <= Covered(bids, ranked, supply, n)
    requires forall x :: x in bids ==> bids[x].debt > 0
    requires forall k :: 0 <= k < n ==> Accepted(bids[ranked[k]], supply, s, enough)
    requires forall d, c :: enough(d, c) ==> c > 0
    ensures IsPlan(bids, ranked, supply, fund, s, n)
  {
    LastIsNoWorse(bids, ranked, supply, fund, s, n);
    forall k | 0 <= k < n ensures Open(Taken(bids, ranked, supply, fund, s, n, k)) {
      assert ranked[k] in bids && Accepted(bids[ranked[k]], supply, s, enough);
    }
  }

  /** Debt and fund still to hand out when the first `k` bids have been executed. */
  ghost function Left(bids: map<Account, Bid>, ranked: seq<Account>, supply: nat, fund: nat, s: Price, n: nat, k: nat): (int, int)
    requires k <= n <= |ranked| && forall x :: x in ranked ==> x in bids
  {
    if k < n then (supply - Covered(bids, ranked, supply, k), fund - Shares(bids, ranked, supply, s, k)) else (0, 0)
  }

  /** What the next bid is given: its debt and share, or everything that is left once it reaches that. */
  function NextShare(b: Bid, supply: nat, s: Price, toCover: int, remaining: int): (int, int) {
    var d := CappedDebt(b, supply);
    if d >= toCover then (toCover, remaining) else (d, ToQuote(d, s))
  }

  /** One step of the second pass: only the last bid reaches what is left, and no share exceeds what remains. */
  lemma PlanStep(bids: map<Account, Bid>, ranked: seq<Account>, supply: nat, fund: nat, s: Price, n: nat, i: nat)
    requires IsPlan(bids, ranked, supply, fund, s, n) && supply * s.quote <= fund * s.base && i < n
    ensures var b := bids[ranked[i]];
            var (toCover, remaining) := Left(bids, ranked, supply, fund, s, n, i);
            var (debt, collateral) := NextShare(b, supply, s, toCover, remaining);
            && 0 < debt <= toCover && 0 <= collateral <= remaining
            && Taken(bids, ranked, supply, fund, s, n, i) == Position(b.collateral + collateral, debt, None)
            && Left(bids, ranked, supply, fund, s, n, i + 1) == (toCover - debt, remaining - collateral)
  {
    assert Open(Taken(bids, ranked, supply, fund, s, n, i));
    CoveredMono(bids, ranked, supply, i, n - 1);
    SharesAreCovered(bids, ranked, supply, fund, s, i);
    if i < n - 1 {
      CoveredMono(bids, ranked, supply, i + 1, n - 1);
      SharesAreCovered(bids, ranked, supply, fund, s, i + 1);
    }
  }

  /** The positions after the first `k` bids have been executed. */
  ghost function Positions(bids: map<Account, Bid>, ranked: seq<Account>, supply: nat, fund: nat, s: Price, n: nat, k: nat)
    : map<Account, Position>
    requires IsPlan(bids, ranked, supply, fund, s, n) && k <= n
  {
    if k == 0 then map[]
    else Positions(bids, ranked, supply, fund, s, n, k - 1)[ranked[k - 1] := Taken(bids, ranked, supply, fund, s, n, k - 1)]
  }

  /** The bids left when the first `k` are gone. */
  ghost function Rest(bids: map<Account, Bid>, ranked: seq<Account>, k: nat): map<Account, Bid>
    requires k <= |ranked|
  {
    if k == 0 then bids else Rest(bids, ranked, k - 1) - {ranked[k - 1]}
  }

  lemma {:induction false} RestHas(bids: map<Account, Bid>, ranked: seq<Account>, k: nat)
    requires k <= |ranked| && Ranks(ranked, bids)
    ensures forall x :: x in Rest(bids, ranked, k) <==> x in ranked[k..]
    ensures forall x :: x in Rest(bids, ranked, k) ==> Rest(bids, ranked, k)[x] == bids[x]
  {
    if k == 0 {
      assert ranked[0..] == ranked;
    } else {
      RestHas(bids, ranked, k - 1);
      assert ranked[k - 1..] == [ranked[k - 1]] + ranked[k..];
      assert ranked[k - 1] !in ranked[k..] by { NotLater(ranked, k - 1); }
    }
  }

  lemma NotLater(ranked: seq<Account>, k: nat)
    requires k < |ranked| && forall i, j :: 0 <= i < j < |ranked| ==> ranked[i] != ranked[j]
    ensures ranked[k] !in ranked[k + 1..] && ranked[k] !in ranked[..k]
  {
  }

  lemma PlanBounds(bids: map<Account, Bid>, ranked: seq<Account>, supply: nat, fund: nat, s: Price, n: nat)
    requires IsPlan(bids, ranked, supply, fund, s, n)
    ensures 0 < n <= |ranked| && (forall x :: x in ranked ==> x in bids)
    ensures Covered(bids, ranked, supply, n - 1) < supply && Shares(bids, ranked, supply, s, n - 1) <= fund
  {
  }

  lemma {:induction false} PlanOpens(bids: map<Account, Bid>, ranked: seq<Account>, supply: nat, fund: nat, s: Price, n: nat, k: nat)
    requires IsPlan(bids, ranked, supply, fund, s, n) && k < n
    ensures Open(Taken(bids, ranked, supply, fund, s, n, k))
  {
  }

  lemma {:induction false} PositionsHas(bids: map<Account, Bid>, ranked: seq<Account>, supply: nat, fund: nat, s: Price,
                                        n: nat, k: nat)
    requires IsPlan(bids, ranked, supply, fund, s, n) && k <= n && Ranks(ranked, bids)
    ensures var calls := Positions(bids, ranked, supply, fund, s, n, k);
            && (forall x :: x in calls <==> x in ranked[..k])
            && (forall x :: x in calls ==> Open(calls[x]))
  {
    hide Covered, Shares, Taken, CappedDebt, IsPlan, Ranks, Open;
    PlanBounds(bids, ranked, supply, fund, s, n);
    if k > 0 {
      PositionsHas(bids, ranked, supply, fund, s, n, k - 1);
      PlanOpens(bids, ranked, supply, fund, s, n, k - 1);
      assert ranked[..k] == ranked[..k - 1] + [ranked[k - 1]];
    }
  }

  /** Every executed bid has the position planned for it. */
  lemma {:induction false} PositionsAt(bids: map<Account, Bid>, ranked: seq<Account>, supply: nat, fund: nat, s: Price,
                                       n: nat, k: nat, i: nat)
    requires IsPlan(bids, ranked, supply, fund, s, n) && i < k <= n && Ranks(ranked, bids)
    ensures ranked[i] in Positions(bids, ranked, supply, fund, s, n, k)
    ensures Positions(bids, ranked, supply, fund, s, n, k)[ranked[i]] == Taken(bids, ranked, supply, fund, s, n, i)
  {
    hide Covered, Shares, Taken, CappedDebt, IsPlan, Open;
    PlanBounds(bids, ranked, supply, fund, s, n);
    if i < k - 1 { PositionsAt(bids, ranked, supply, fund, s, n, k - 1, i); }
  }

  lemma NothingCovered(bids: map<Account, Bid>, ranked: seq<Account>, supply: nat)
    requires forall x :: x in ranked ==> x in bids
    ensures Covered(bids, ranked, supply, 0) == 0
  {
  }

  lemma {:induction false} TakenDebt(bids: map<Account, Bid>, ranked: seq<Account>, supply: nat, fund: nat, s: Price, n: nat, k: nat)
    requires IsPlan(bids, ranked, supply, fund, s, n) && k < n
    ensures Taken(bids, ranked, supply, fund, s, n, k).debt
            == (if k + 1 < n then Covered(bids, ranked, supply, k + 1) else supply) - Covered(bids, ranked, supply, k)
  {
  }

  /** Executing the whole plan takes over exactly the supply. */
  lemma {:induction false} PositionsDebt(bids: map<Account, Bid>, ranked: seq<Account>, supply: nat, fund: nat, s: Price,
                                         n: nat, k: nat)
    requires IsPlan(bids, ranked, supply, fund, s, n) && k <= n && Ranks(ranked, bids)
    ensures Sum(Positions(bids, ranked, supply, fund, s, n, k), DebtOf())
            == if k < n then Covered(bids, ranked, supply, k) else supply
  {
    hide Shares, Taken, CappedDebt, Covered, IsPlan, Open;
    PlanBounds(bids, ranked, supply, fund, s, n);
    if k == 0 {
      assert Covered(bids, ranked, supply, 0) == 0 by { NothingCovered(bids, ranked, supply); }
    } else {
      PositionsDebt(bids, ranked, supply, fund, s, n, k - 1);
      PositionsHas(bids, ranked, supply, fund, s, n, k - 1);
      NotLater(ranked, k - 1);
      TakenDebt(bids, ranked, supply, fund, s, n, k - 1);
      SumUpdate(Positions(bids, ranked, supply, fund, s, n, k - 1), ranked[k - 1],
                Taken(bids, ranked, supply, fund, s, n, k - 1), DebtOf());
    }
  }

  /** The bids, best first, can take over the whole supply. */
  ghost predicate CanTakeOver(bids: map<Account, Bid>, ranked: seq<Account>, supply: int, s: Price, enough: (nat, nat) -> bool)
    requires forall x :: x in ranked ==> x in bids
  {
    supply <= 0 || exists m: nat :: Suffices(bids, ranked, supply, s, enough, m)
  }

  /** Collateral that the first `k` bids bring along. */
  function OwnCollateral(bids: map<Account, Bid>, ranked: seq<Account>, k: nat): nat
    requires k <= |ranked| && forall x :: x in ranked ==> x in bids
  {
    if k == 0 then 0 else OwnCollateral(bids, ranked, k - 1) + bids[ranked[k - 1]].collateral
  }

  lemma {:induction false} TakenCollateral(bids: map<Account, Bid>, ranked: seq<Account>, supply: nat, fund: nat, s: Price, n: nat, k: nat)
    requires IsPlan(bids, ranked, supply, fund, s, n) && k < n
    ensures Taken(bids, ranked, supply, fund, s, n, k).collateral
            == bids[ranked[k]].collateral + (if k + 1 < n then Shares(bids, ranked, supply, s, k + 1) else fund) - Shares(bids, ranked, supply, s, k)
  {
  }

  lemma NothingShared(bids: map<Account, Bid>, ranked: seq<Account>, supply: nat, s: Price)
    requires forall x :: x in ranked ==> x in bids
    ensures Shares(bids, ranked, supply, s, 0) == 0
  {
  }

  /** Executing the whole plan hands out exactly the fund, on top of what the bids bring along. */
  lemma {:induction false} PositionsCollateral(bids: map<Account, Bid>, ranked: seq<Account>, supply: nat, fund: nat, s: Price,
                                               n: nat, k: nat)
    requires IsPlan(bids, ranked, supply, fund, s, n) && k <= n && Ranks(ranked, bids)
    ensures Sum(Positions(bids, ranked, supply, fund, s, n, k), CollateralOf())
            == OwnCollateral(bids, ranked, k) + if k < n then Shares(bids, ranked, supply, s, k) else fund
  {
    hide Shares, Taken, CappedDebt, Covered, IsPlan, Open;
    PlanBounds(bids, ranked, supply, fund, s, n);
    if k == 0 {
      NothingShared(bids, ranked, supply, s);
    } else {
      PositionsCollateral(bids, ranked, supply, fund, s, n, k - 1);
      PositionsHas(bids, ranked, supply, fund, s, n, k - 1);
      NotLater(ranked, k - 1);
      TakenCollateral(bids, ranked, supply, fund, s, n, k - 1);
      SumUpdate(Positions(bids, ranked, supply, fund, s, n, k - 1), ranked[k - 1],
                Taken(bids, ranked, supply, fund, s, n, k - 1), CollateralOf());
    }
  }

  /**
   * Revives the market if, and only if, there is a feed and the bids, best first, can take
   * over the whole supply.  Every needed bid but the last gets its full debt and its share of the fund,
   * the last gets exactly the rest of both, and all other bids are returned.
   */
  method ProcessBids(db: Ledger, ranked: seq<Account>, enough: (nat, nat) -> bool) returns (revived: bool, ghost n: nat)
    requires Valid(db) && db.swan.Some? && Ranks(ranked, db.bids)
    requires forall d, c :: enough(d, c) ==> c > 0
    modifies db
    ensures Valid(db) && forall b :: db.Net(b) == old(db.Net(b))
    ensures db.supply == old(db.supply) && db.orders == old(db.orders)
    ensures revived <==> old(db.feed.Some?) && CanTakeOver(old(db.bids), ranked, old(Get(db.supply, db.p.mia)), old(db.swan.value), enough)
    ensures !revived ==> db.swan == old(db.swan) && db.bids == old(db.bids) && db.swanFund == old(db.swanFund)
    ensures revived ==> db.swan.None? && db.bids == map[]
    ensures revived && old(Get(db.supply, db.p.mia)) > 0
            ==> var supply := old(Get(db.supply, db.p.mia));
                && IsPlan(old(db.bids), ranked, supply, old(db.swanFund), old(db.swan.value), n)
                && db.calls == Positions(old(db.bids), ranked, supply, old(db.swanFund), old(db.swan.value), n, n)
                && Sum(db.calls, DebtOf()) == supply
                && Sum(db.calls, CollateralOf()) == old(db.swanFund) + OwnCollateral(old(db.bids), ranked, n)
    ensures NoLess(old(db.balances), db.balances)
  {
    hide Ledger.Net, Ledger.CoreGap, Ledger.TotalDebt, Ledger.DebtGap, Suffices, Covered, Accepted;
    ghost var bids, fund := db.bids, db.swanFund;
    var supply, s := Get(db.supply, db.p.mia), db.swan.value;
    n := 0;
    if db.feed.None? { return false, 0; }
    if supply == 0 {
      ReviveEmpty(db, ranked);
      return true, 0;
    }
    var end;
    revived, end := CountNeeded(db.bids, ranked, supply, s, enough);
    if !revived { return; }
    n := end;
    PlanExists(db.bids, ranked, supply, db.swanFund, s, end, enough);
    TakeOver(db, ranked, end);
    PositionsDebt(bids, ranked, supply, fund, s, end, end);
    PositionsCollateral(bids, ranked, supply, fund, s, end, end);
  }

  /** A market whose whole supply has been redeemed just returns the bids. */
  method ReviveEmpty(db: Ledger, ranked: seq<Account>)
    requires Valid(db) && db.swan.Some? && Get(db.supply, db.p.mia) == 0 && Ranks(ranked, db.bids)
    modifies db
    ensures Valid(db) && forall b :: db.Net(b) == old(db.Net(b))
    ensures db.swan.None? && db.bids == map[] && db.calls == map[] && db.supply == old(db.supply)
    ensures db.orders == old(db.orders)
    ensures NoLess(old(db.balances), db.balances)
  {
    hide Ledger.Net, Ledger.CoreGap;
    assert db.TotalDebt() == 0;
    CancelBidsAndRevive(db, db.bids, ranked, 0);
  }

  /**
   * Revival by the settlement fund itself: the issuer takes over the whole supply with
   * the whole fund as collateral.  It cannot proceed while the issuer has a bid of its
   * own, because there is only one bid per account.
   */
  method ReviveByFund(db: Ledger, ranked: seq<Account>, issuer: Account) returns (ok: bool)
    requires Valid(db) && db.swan.Some? && Ranks(ranked, db.bids)
    modifies db
    ensures Valid(db) && forall b :: db.Net(b) == old(db.Net(b))
    ensures ok <==> old(Get(db.supply, db.p.mia)) == 0 || issuer !in old(db.bids)
    ensures db.orders == old(db.orders)
    ensures !ok ==> db.swan == old(db.swan) && db.bids == old(db.bids) && db.calls == old(db.calls)
    ensures ok ==> db.swan.None? && db.bids == map[] && db.supply == old(db.supply)
    ensures ok && Get(db.supply, db.p.mia) > 0
            ==> db.calls == map[issuer := Position(old(db.swanFund), old(Get(db.supply, db.p.mia)), None)]
    ensures NoLess(old(db.balances), db.balances)
  {
    hide Ledger.Net, Ledger.CoreGap, Ledger.TotalDebt, Ledger.DebtGap;
    var supply := Get(db.supply, db.p.mia);
    if supply == 0 {
      ReviveEmpty(db, ranked);
      return true;
    }
    if issuer in db.bids { return false; }
    FundIsPositive(supply, db.swanFund, db.swan.value);
    HandToIssuer(db, ranked, issuer);
    return true;
  }

  /** Asset 1 backed by asset 2, and no fees. */
  function ExampleParams(): (p: Params)
    ensures p.mia == 1 && p.backing == 2
  {
    var none := FeeOptions(false, 0, None, 0, 0);
    Params(1, 2, a => none, 0, 0, 0, 0, x => x, x => x, x => 0, (x, a) => false, (x, a) => true)
  }

  /** A settled market: account 3 holds the whole supply of ten, which the fund backs with a hundred, and account 7 has five more. */
  method SettledExample() returns (db: Ledger)
    ensures fresh(db) && Valid(db) && db.swan.Some? && db.bids == map[] && Get(db.supply, db.p.mia) == 10
    ensures Get(db.balances, (7, db.p.backing)) == 5
  {
    hide Ledger.Net, Ledger.CoreGap, Ledger.TotalDebt, Ledger.DebtGap, ExampleParams;
    db := new Ledger(ExampleParams(), GlobalSettlement, map[], map[]);
    db.balances, db.supply := map[(3, 1) := 10, (7, 2) := 5], map[1 := 10, 2 := 105];
    db.swan, db.swanFund := Some(Pair(10, 100)), 100;
  }

  /** It happens: the issuer, account 7, bids, and the fund can then no longer revive the market. */
  method IssuerBidExample() returns (db: Ledger, revived: bool)
    ensures fresh(db) && Valid(db) && db.swan.Some? && !revived
  {
    hide Ledger.Net, Ledger.CoreGap, Ledger.TotalDebt, Ledger.DebtGap, Swapped;
    db := SettledExample();
    var placed := PlaceBid(db, 7, 5, 10);
    assert placed && Ranks([7], db.bids);
    revived := ReviveByFund(db, [7], 7);
  }

  lemma FundIsPositive(supply: nat, fund: nat, s: Price)
    requires supply > 0 && supply * s.quote <= fund * s.base
    ensures fund > 0
  {
    MulStrict(0, supply, s.quote);
    MulCancelStrict(0, fund, s.base);
  }

  method HandToIssuer(db: Ledger, ranked: seq<Account>, issuer: Account)
    requires CoreExact(db) && db.calls == map[] && Ranks(ranked, db.bids) && issuer !in db.bids && db.pool.debt == 0
    requires Get(db.supply, db.p.mia) > 0
    modifies db`bids, db`calls, db`coreInOrders, db`balances, db`swan, db`swanFund
    ensures CoreExact(db) && db.DebtGap() == 0
    ensures db.bids == map[] && db.swan == None && db.swanFund == 0
    ensures db.calls == map[issuer := Position(old(db.swanFund), Get(db.supply, db.p.mia), None)]
    ensures forall b :: db.Net(b) == old(db.Net(b))
    ensures NoLess(old(db.balances), db.balances)
  {
    hide Ledger.Net, Ledger.CoreGap;
    ghost var bids := db.bids;
    assert db.TotalDebt() == 0;
    db.SetBid(issuer, Bid(0, Get(db.supply, db.p.mia)));
    db.ExecuteBid(issuer, Get(db.supply, db.p.mia), db.swanFund);
    assert db.bids == bids;
    CancelBidsAndRevive(db, bids, ranked, 0);
  }

  /** Hands the debt and the fund to the first `end` bids and returns the others. */
  method TakeOver(db: Ledger, ranked: seq<Account>, end: nat)
    requires db.swan.Some? && Solvent(db) && CoreExact(db) && Ranks(ranked, db.bids)
    requires Get(db.supply, db.p.mia) > 0
    requires IsPlan(db.bids, ranked, Get(db.supply, db.p.mia), db.swanFund, db.swan.value, end)
    modifies db`bids, db`calls, db`coreInOrders, db`balances, db`swan, db`swanFund
    ensures CoreExact(db) && CallsOpen(db) && db.DebtGap() == 0
    ensures db.bids == map[] && db.swan == None && db.swanFund == 0
    ensures forall b :: db.Net(b) == old(db.Net(b))
    ensures db.calls == Positions(old(db.bids), ranked, Get(db.supply, db.p.mia), old(db.swanFund), old(db.swan.value), end, end)
    ensures NoLess(old(db.balances), db.balances)
  {
    hide Ledger.Net, Ledger.CoreGap;
    ghost var bids := db.bids;
    ExecuteBids(db, ranked, end);
    CancelBidsAndRevive(db, bids, ranked, end);
  }

  /** The second pass: turns the needed bids into positions, handing out the whole fund. */
  method ExecuteBids(db: Ledger, ranked: seq<Account>, end: nat)
    requires db.swan.Some? && Solvent(db) && CoreExact(db) && Ranks(ranked, db.bids)
    requires Get(db.supply, db.p.mia) > 0
    requires IsPlan(db.bids, ranked, Get(db.supply, db.p.mia), db.swanFund, db.swan.value, end)
    modifies db`bids, db`calls, db`coreInOrders
    ensures CoreExact(db) && CallsOpen(db) && db.TotalDebt() == Get(db.supply, db.p.mia)
    ensures forall b :: db.Net(b) == old(db.Net(b)) + if b == db.p.backing then db.swanFund else 0
    ensures db.bids == Rest(old(db.bids), ranked, end)
    ensures db.calls == Positions(old(db.bids), ranked, Get(db.supply, db.p.mia), db.swanFund, db.swan.value, end, end)
  {
    hide Ledger.Net, Ledger.CoreGap, Taken, Covered, Shares, ToQuote;
    ghost var bids, fund := db.bids, db.swanFund;
    var supply: nat, s := Get(db.supply, db.p.mia), db.swan.value;
    var toCover: int, remaining: int := supply, db.swanFund;
    StartOfPlan(bids, ranked, supply, fund, s, end);
    var i := 0;
    while i < end
      invariant 0 <= i <= end && CoreExact(db)
      invariant (toCover, remaining) == Left(bids, ranked, supply, fund, s, end, i)
      invariant forall b :: db.Net(b) == old(db.Net(b)) + if b == db.p.backing then fund - remaining else 0
      invariant db.bids == Rest(bids, ranked, i)
      invariant db.calls == Positions(bids, ranked, supply, fund, s, end, i)
    {
      toCover, remaining := ExecuteNext(db, ranked, i, end, supply, s, toCover, remaining, bids, fund);
      i := i + 1;
    }
    assert CallsOpen(db) by { PositionsHas(bids, ranked, supply, fund, s, end, end); }
    assert db.TotalDebt() == supply by { PositionsDebt(bids, ranked, supply, fund, s, end, end); }
  }

  lemma StartOfPlan(bids: map<Account, Bid>, ranked: seq<Account>, supply: nat, fund: nat, s: Price, n: nat)
    requires IsPlan(bids, ranked, supply, fund, s, n)
    ensures Left(bids, ranked, supply, fund, s, n, 0) == (supply, fund)
  {
  }

  /** Turns the next bid into a position. */
  method ExecuteNext(db: Ledger, ranked: seq<Account>, i: nat, end: nat, supply: nat, s: Price, toCover: int, remaining: int,
                     ghost bids: map<Account, Bid>, ghost fund: nat)
    returns (coverLeft: int, fundLeft: int)
    requires CoreExact(db) && Ranks(ranked, bids) && IsPlan(bids, ranked, supply, fund, s, end) && supply * s.quote <= fund * s.base
    requires i < end && (toCover, remaining) == Left(bids, ranked, supply, fund, s, end, i)
    requires db.bids == Rest(bids, ranked, i) && db.calls == Positions(bids, ranked, supply, fund, s, end, i)
    modifies db`bids, db`calls, db`coreInOrders
    ensures CoreExact(db) && (coverLeft, fundLeft) == Left(bids, ranked, supply, fund, s, end, i + 1)
    ensures db.bids == Rest(bids, ranked, i + 1) && db.calls == Positions(bids, ranked, supply, fund, s, end, i + 1)
    ensures forall b :: db.Net(b) == old(db.Net(b)) + if b == db.p.backing then remaining - fundLeft else 0
  {
    hide Ledger.Net, Ledger.CoreGap, Ledger.TotalDebt, Ledger.DebtGap, Taken, Covered, Shares, ToQuote;
    var x := ranked[i];
    assert x in db.bids && db.bids[x] == bids[x] by {
      RestHas(bids, ranked, i);
      assert x in ranked[i..];
    }
    assert x !in db.calls by {
      PositionsHas(bids, ranked, supply, fund, s, end, i);
      NotLater(ranked, i);
    }
    PlanStep(bids, ranked, supply, fund, s, end, i);
    var (debt, collateral) := NextShare(db.bids[x], supply, s, toCover, remaining);
    coverLeft, fundLeft := toCover - debt, remaining - collateral;
    db.ExecuteBid(x, debt, collateral);
  }

  /** Returns the bids that were not needed and ends the settlement. */
  method CancelBidsAndRevive(db: Ledger, ghost bids: map<Account, Bid>, ranked: seq<Account>, from: nat)
    requires from <= |ranked| && Ranks(ranked, bids) && db.bids == Rest(bids, ranked, from)
    modifies db`balances, db`bids, db`swan, db`swanFund
    ensures db.bids == map[] && db.swan == None && db.swanFund == 0
    ensures forall b :: db.Net(b) == old(db.Net(b)) - if b == db.p.backing then old(db.swanFund) else 0
    ensures NoLess(old(db.balances), db.balances)
  {
    hide Ledger.Net, Ledger.CoreGap, Ledger.TotalDebt, Ledger.DebtGap;
    var i := from;
    while i < |ranked|
      invariant from <= i <= |ranked| && db.bids == Rest(bids, ranked, i)
      invariant forall b :: db.Net(b) == old(db.Net(b))
      invariant db.swanFund == old(db.swanFund) && NoLess(old(db.balances), db.balances)
    {
      RestHas(bids, ranked, i);
      assert ranked[i] in ranked[i..];
      db.CancelBid(ranked[i]);
      i := i + 1;
    }
    RestHas(bids, ranked, i);
    db.LeaveSwan(db.swanFund);
  }
}
