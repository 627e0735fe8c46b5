/**
 * Every place in which the chain keeps the amounts of one collateralised market,
 * and the primitive operations that move amounts between them.  For each asset the
 * amounts held minus the recorded supply is tracked through every operation.
 */
module Ledger {
  import opened Wrappers
  import opened Prices
  import opened MaxDebt
  import opened Sums
  import opened SettledDebt
  import opened Feeds

  type Account = nat
  type Asset = nat

  /** The core asset and the committee account have instance number zero. */
  const CORE: Asset := 0
  const COMMITTEE: Account := 0
  const HUNDRED_PERCENT: nat := 10000

  type Percent = x: nat | x <= 10000

  /** Market fee options of an asset. */
  datatype FeeOptions = FeeOptions(charges: bool, makerPercent: Percent, takerPercent: Option<Percent>,
                                   maxFee: nat, rewardPercent: Percent)

  /**
   * What operations read but never change: the debt asset and its backing, fee
   * options, the referral program and the answers of the authorization checks.
   */
  datatype Params = Params(mia: Asset, backing: Asset, fees: Asset -> FeeOptions, networkPercent: Percent,
                           makerDiscount: Percent, cancelFee: nat, forceSettleFee: Percent,
                           registrar: Account -> Account, referrer: Account -> Account,
                           referrerPercent: Account -> Percent,
                           sharesRewards: (Account, Asset) -> bool, mayReceive: (Account, Asset) -> bool)
  {
    predicate Valid() {
      mia != backing && mia != CORE
    }
  }

  /** `deferredFee` is in the core asset; `deferredPaid` of `feeAsset` is what was paid for it, if not core. */
  datatype LimitOrder = LimitOrder(seller: Account, sells: Asset, wants: Asset, forSale: nat, price: Price,
                                   deferredFee: nat, deferredPaid: nat, feeAsset: Asset)
  {
    function ToReceive(): nat {
      ToQuote(forSale, price)
    }
  }

  datatype SettleOrder = SettleOrder(owner: Account, balance: nat, date: nat)

  /** `collateral` offered by the bidder for taking over `debt`. */
  datatype Bid = Bid(collateral: nat, debt: nat)

  // Weights under which the pots are summed.

  ghost function HeldByOrder(a: Asset): (nat, LimitOrder) -> int {
    (k: nat, o: LimitOrder) =>
      (if o.sells == a then o.forSale else 0) + (if a == CORE then o.deferredFee else 0)
      + (if o.feeAsset == a then o.deferredPaid else 0)
  }

  ghost function CoreOnOffer(x: Account): (nat, LimitOrder) -> int {
    (k: nat, o: LimitOrder) => if o.seller == x && o.sells == CORE then o.forSale else 0
  }

  ghost function CollateralOf(): (Account, Position) -> int {
    (x: Account, c: Position) => c.collateral
  }

  ghost function DebtOf(): (Account, Position) -> int {
    (x: Account, c: Position) => c.debt
  }

  ghost function SettleBalance(): (nat, SettleOrder) -> int {
    (k: nat, s: SettleOrder) => s.balance
  }

  ghost function BidCollateral(): (Account, Bid) -> int {
    (x: Account, b: Bid) => b.collateral
  }

  /** A share of an amount, rounded down. */
  function Cut(amount: nat, percent: Percent): (r: nat)
    ensures r <= amount
    ensures percent == HUNDRED_PERCENT ==> r == amount
    ensures r * HUNDRED_PERCENT <= amount * percent < r * HUNDRED_PERCENT + HUNDRED_PERCENT
  {
    var r := DivDown(amount * percent, HUNDRED_PERCENT);
    MulMono(percent, HUNDRED_PERCENT, amount);
    MulCancel(r, amount, HUNDRED_PERCENT);
    if percent == HUNDRED_PERCENT then
      DivDownAtLeast(amount * percent, HUNDRED_PERCENT, amount);
      r
    else r
  }

  /** No account holds less of anything than before. */
  ghost predicate NoLess(before: map<(Account, Asset), nat>, after: map<(Account, Asset), nat>) {
    forall k :: Get(before, k) <= Get(after, k)
  }

  /** An account got at least this much more of an asset. */
  ghost predicate Credited(before: map<(Account, Asset), nat>, after: map<(Account, Asset), nat>, x: Account, a: Asset, amount: int) {
    Get(after, (x, a)) >= Get(before, (x, a)) + amount
  }

  /** One account gave `paid` of one asset and got `got` of another (or of the same), and no other balance moved. */
  ghost predicate Swapped(before: map<(Account, Asset), nat>, after: map<(Account, Asset), nat>, x: Account,
                          gives: Asset, paid: int, gets: Asset, got: int) {
    forall k :: Get(after, k) == Get(before, k) - (if k == (x, gives) then paid else 0) + (if k == (x, gets) then got else 0)
  }

  /** No balance has fallen, except perhaps those of `x`. */
  ghost predicate OnlyFrom(before: map<(Account, Asset), nat>, after: map<(Account, Asset), nat>, x: Option<Account>) {
    forall k: (Account, Asset) :: x == Some(k.0) || Get(before, k) <= Get(after, k)
  }

  /** A payment, then another movement of the same account's money. */
  lemma PaidThenMoved(before: map<(Account, Asset), nat>, between: map<(Account, Asset), nat>, after: map<(Account, Asset), nat>,
                      x: Account, gives: Asset, paid: int, gets: Asset, got: int)
    requires Get(before, (x, gives)) >= paid
    requires between == if paid == 0 then before else before[(x, gives) := Get(before, (x, gives)) - paid]
    requires Swapped(between, after, x, gets, 0 - got, gets, 0)
    ensures Swapped(before, after, x, gives, paid, gets, got) && Swapped(before, after, x, gets, 0 - got, gives, 0 - paid)
  {
  }

  lemma Moved(before: map<(Account, Asset), nat>, x: Account, a: Asset, delta: int)
    requires Get(before, (x, a)) >= delta
    ensures Swapped(before, if delta == 0 then before else before[(x, a) := Get(before, (x, a)) - delta], x, a, delta, a, 0)
  {
  }

  lemma NoLessChain(a: map<(Account, Asset), nat>, b: map<(Account, Asset), nat>, c: map<(Account, Asset), nat>)
    requires NoLess(a, b) && NoLess(b, c)
    ensures NoLess(a, c)
  {
  }

  lemma SameIsNoLess(balances: map<(Account, Asset), nat>)
    ensures NoLess(balances, balances)
  {
  }

  /** The orders after `pays` was taken from one of them. */
  ghost predicate Reduced(before: map<nat, LimitOrder>, id: nat, pays: nat, cull: bool,
                          after: map<nat, LimitOrder>, filled: bool)
    requires id in before && pays <= before[id].forSale
  {
    var left := before[id].(forSale := before[id].forSale - pays, deferredFee := 0, deferredPaid := 0);
    && filled == (left.forSale == 0 || (cull && left.ToReceive() == 0))
    && after == if filled then before - {id} else before[id := left]
  }

  /** The positions after one of them paid `pays` to have `covers` of its debt covered. */
  ghost function CallsAfter(calls: map<Account, Position>, x: Account, pays: nat, covers: nat): map<Account, Position>
    requires x in calls && pays <= calls[x].collateral && covers <= calls[x].debt
  {
    if covers == calls[x].debt then calls - {x}
    else calls[x := calls[x].(collateral := calls[x].collateral - pays, debt := calls[x].debt - covers)]
  }

  class Ledger {
    const p: Params

    /** Account balances. */
    var balances: map<(Account, Asset), nat>
    /** Balances vesting to accounts. */
    var vesting: map<(Account, Asset), nat>
    /** Core fees not yet distributed, by paying account. */
    var pending: map<Account, nat>
    var orders: map<nat, LimitOrder>
    var calls: map<Account, Position>
    var settles: map<nat, SettleOrder>
    var bids: map<Account, Bid>
    /** Recorded supply of each asset. */
    var supply: map<Asset, int>
    var accumulatedFees: map<Asset, nat>
    /** Core held to pay fees on behalf of holders of each asset. */
    var feePool: map<Asset, nat>
    /** Fees of the debt asset's issuer in the backing asset. */
    var collateralFees: nat
    /** The pool of individually settled debt, and the order selling it. */
    var pool: Pool
    var debtOrder: Option<DebtOrder>
    /** The global settlement price (supply and fund when it was set) and what the fund holds now. */
    var swan: Option<Price>
    var swanFund: nat
    /** How the market responds to undercollateralization, and its price feed, if any. */
    var response: Response
    var feed: Option<Feed>
    /** Core that each account has on the books, as recorded for voting. */
    var coreInOrders: map<Account, int>

    /** Before anything has happened on the market, all there is of any asset is held in balances. */
    constructor (p: Params, response: Response, balances: map<(Account, Asset), nat>, supply: map<Asset, int>)
      requires forall a :: Sum(balances, InAsset(a)) == Get(supply, a)
      ensures this.p == p && this.response == response && this.balances == balances && this.supply == supply
      ensures vesting == map[] && pending == map[] && accumulatedFees == map[] && feePool == map[] && collateralFees == 0
      ensures orders == map[] && calls == map[] && settles == map[] && bids == map[] && coreInOrders == map[]
      ensures pool == Pool(0, 0) && debtOrder == None && swan == None && swanFund == 0 && feed == None
      ensures forall a :: Net(a) == 0
      ensures forall x :: CoreGap(x) == 0
    {
      this.p, this.response, this.balances, this.supply := p, response, balances, supply;
      vesting, pending, accumulatedFees, feePool, collateralFees := map[], map[], map[], map[], 0;
      orders, calls, settles, bids, coreInOrders := map[], map[], map[], map[], map[];
      pool, debtOrder, swan, swanFund, feed := Pool(0, 0), None, None, 0, None;
    }

    /** All of an asset that is held anywhere, minus its recorded supply. */
    ghost function Net(a: Asset): int
      reads this`balances, this`vesting, this`orders, this`accumulatedFees, this`pending, this`feePool, this`settles,
            this`calls, this`bids, this`collateralFees, this`pool, this`swanFund, this`supply
    {
      Sum(balances, InAsset(a)) + Sum(vesting, InAsset(a)) + Sum(orders, HeldByOrder(a))
      + Get(accumulatedFees, a)
      + (if a == CORE then Sum(pending, Amount()) + Sum(feePool, Amount()) else 0)
      + (if a == p.mia then Sum(settles, SettleBalance()) else 0)
      + (if a == p.backing
         then Sum(calls, CollateralOf()) + Sum(bids, BidCollateral()) + collateralFees + pool.fund + swanFund
         else 0)
      - Get(supply, a)
    }

    ghost function TotalDebt(): int
      reads this`calls
    {
      Sum(calls, DebtOf())
    }

    /** Supply of the debt asset not matched by any debt. */
    ghost function DebtGap(): int
      reads this`supply, this`calls, this`pool
    {
      Get(supply, p.mia) - TotalDebt() - pool.debt
    }

    ghost function CallCore(x: Account): int
      reads this`calls
    {
      if p.backing == CORE && x in calls then calls[x].collateral else 0
    }

    /** Difference between the recorded and the actual amount of core an account has on the books. */
    ghost function CoreGap(x: Account): int
      reads this`coreInOrders, this`orders, this`calls
    {
      Get(coreInOrders, x) - Sum(orders, CoreOnOffer(x)) - CallCore(x)
    }

    method SetFeed(f: Feed)
      modifies this`feed
      ensures feed == Some(f)
    {
      feed := Some(f);
    }

    // Account balances and fees

    predicate CanPay(x: Account, a: Asset, amount: nat)
      reads this`balances
    {
      Get(balances, (x, a)) >= amount
    }

    method AdjustBalance(x: Account, a: Asset, delta: int)
      requires Get(balances, (x, a)) + delta >= 0
      modifies this`balances
      ensures balances == old(if delta == 0 then balances else balances[(x, a) := Get(balances, (x, a)) + delta])
      ensures OthersBalances(x) == old(OthersBalances(x))
      ensures forall b :: Net(b) == old(Net(b)) + if b == a then delta else 0
    {
      if delta == 0 { return; }
      var v: nat := Get(balances, (x, a)) + delta;
      forall b ensures Sum(balances[(x, a) := v], InAsset(b)) == Sum(balances, InAsset(b)) + if b == a then delta else 0 {
        SumUpdate(balances, (x, a), v, InAsset(b));
      }
      balances := balances[(x, a) := v];
    }

    method DepositVesting(x: Account, a: Asset, amount: nat)
      modifies this`vesting
      ensures vesting == old(if amount == 0 then vesting else vesting[(x, a) := Get(vesting, (x, a)) + amount])
      ensures forall b :: Net(b) == old(Net(b)) + if b == a then amount else 0
    {
      if amount == 0 { return; }
      var v: nat := Get(vesting, (x, a)) + amount;
      forall b ensures Sum(vesting[(x, a) := v], InAsset(b)) == Sum(vesting, InAsset(b)) + if b == a then amount else 0 {
        SumUpdate(vesting, (x, a), v, InAsset(b));
      }
      vesting := vesting[(x, a) := v];
    }

    method AccumulateFees(a: Asset, amount: nat)
      modifies this`accumulatedFees
      ensures accumulatedFees == old(accumulatedFees[a := Get(accumulatedFees, a) + amount])
      ensures forall b :: Net(b) == old(Net(b)) + if b == a then amount else 0
    {
      accumulatedFees := accumulatedFees[a := Get(accumulatedFees, a) + amount];
    }

    /** Core fee of an account, to be distributed later. */
    method PayFee(x: Account, amount: nat)
      modifies this`pending
      ensures pending == old(pending[x := Get(pending, x) + amount])
      ensures forall b :: Net(b) == old(Net(b)) + if b == CORE then amount else 0
    {
      var v: nat := Get(pending, x) + amount;
      SumUpdate(pending, x, v, Amount());
      pending := pending[x := v];
    }

    method RefillFeePool(a: Asset, amount: nat)
      modifies this`feePool
      ensures feePool == old(feePool[a := Get(feePool, a) + amount])
      ensures forall b :: Net(b) == old(Net(b)) + if b == CORE then amount else 0
    {
      var v: nat := Get(feePool, a) + amount;
      SumUpdate(feePool, a, v, Amount());
      feePool := feePool[a := v];
    }

    method DrainFeePool(a: Asset, amount: nat)
      requires Get(feePool, a) >= amount
      modifies this`feePool
      ensures feePool == old(feePool[a := Get(feePool, a) - amount])
      ensures forall b :: Net(b) == old(Net(b)) - if b == CORE then amount else 0
    {
      var v: nat := Get(feePool, a) - amount;
      SumUpdate(feePool, a, v, Amount());
      feePool := feePool[a := v];
    }

    /** Market fee on an amount received, never more than that amount. */
    function MarketFee(a: Asset, amount: nat, isMaker: bool): (fee: nat)
      ensures fee <= amount && fee <= if p.fees(a).charges then p.fees(a).maxFee else 0
    {
      var o := p.fees(a);
      if !o.charges then 0
      else
        var percent := if isMaker || o.takerPercent.None? then o.makerPercent else o.takerPercent.value;
        var fee := Cut(amount, percent);
        if fee > o.maxFee then o.maxFee else fee
    }

    /**
     * Takes the market fee on `receives` from the payer `x` and splits it between the
     * network, the payer's referrer and registrar, and the issuer, without remainder.
     */
    method PayMarketFees(x: Account, a: Asset, receives: nat, isMaker: bool) returns (fee: nat)
      modifies this`vesting, this`accumulatedFees
      ensures fee == MarketFee(a, receives, isMaker) <= receives
      ensures forall b :: Net(b) == old(Net(b)) + if b == a then fee else 0
    {
      hide Net, CoreGap;
      fee := MarketFee(a, receives, isMaker);
      var issuerFees := fee;
      if issuerFees > 0 {
        var networkFees := Cut(issuerFees, p.networkPercent);
        assert networkFees <= issuerFees;
        DepositVesting(COMMITTEE, a, networkFees);
        issuerFees := issuerFees - networkFees;
      }
      if issuerFees > 0 {
        var reward := 0;
        if p.sharesRewards(x, a) {
          var rewardValue := Cut(issuerFees, p.fees(a).rewardPercent);
          if rewardValue > 0 && p.mayReceive(p.registrar(x), a) {
            reward := rewardValue;
            assert reward <= issuerFees;
            var registrarReward := reward;
            if p.referrer(x) != p.registrar(x) {
              var referrerReward := Cut(reward, p.referrerPercent(x));
              if referrerReward > 0 && p.mayReceive(p.referrer(x), a) {
                assert referrerReward <= reward;
                registrarReward := registrarReward - referrerReward;
                DepositVesting(p.referrer(x), a, referrerReward);
              }
            }
            DepositVesting(p.registrar(x), a, registrarReward);
          }
        }
        if issuerFees > reward {
          AccumulateFees(a, issuerFees - reward);
        }
      }
    }

    // Limit orders

    ghost function OrderHolds(id: nat, a: Asset): int
      reads this`orders
    {
      if id in orders then HeldByOrder(a)(id, orders[id]) else 0
    }

    ghost function OrderCore(id: nat, x: Account): int
      reads this`orders
    {
      if id in orders then CoreOnOffer(x)(id, orders[id]) else 0
    }

    method SetOrder(id: nat, o: LimitOrder)
      modifies this`orders
      ensures orders == old(orders)[id := o]
      ensures forall b :: Net(b) == old(Net(b)) + HeldByOrder(b)(id, o) - old(OrderHolds(id, b))
      ensures forall x :: CoreGap(x) == old(CoreGap(x)) - CoreOnOffer(x)(id, o) + old(OrderCore(id, x))
    {
      forall b ensures Sum(orders[id := o], HeldByOrder(b)) == Sum(orders, HeldByOrder(b)) + HeldByOrder(b)(id, o) - OrderHolds(id, b) {
        SumUpdate(orders, id, o, HeldByOrder(b));
      }
      forall x ensures Sum(orders[id := o], CoreOnOffer(x)) == Sum(orders, CoreOnOffer(x)) + CoreOnOffer(x)(id, o) - OrderCore(id, x) {
        SumUpdate(orders, id, o, CoreOnOffer(x));
      }
      orders := orders[id := o];
    }

    method RemoveOrder(id: nat)
      requires id in orders
      modifies this`orders
      ensures orders == old(orders) - {id}
      ensures forall b :: Net(b) == old(Net(b)) - old(OrderHolds(id, b))
      ensures forall x :: CoreGap(x) == old(CoreGap(x)) + old(OrderCore(id, x))
    {
      forall b ensures Sum(orders - {id}, HeldByOrder(b)) == Sum(orders, HeldByOrder(b)) - OrderHolds(id, b) {
        SumRemove(orders, id, HeldByOrder(b));
      }
      forall x ensures Sum(orders - {id}, CoreOnOffer(x)) == Sum(orders, CoreOnOffer(x)) - OrderCore(id, x) {
        SumRemove(orders, id, CoreOnOffer(x));
      }
      orders := orders - {id};
    }

    method AdjustCoreInOrders(x: Account, delta: int)
      modifies this`coreInOrders
      ensures coreInOrders == old(coreInOrders[x := Get(coreInOrders, x) + delta])
      ensures forall y :: CoreGap(y) == old(CoreGap(y)) + if y == x then delta else 0
      ensures forall b :: Net(b) == old(Net(b))
    {
      coreInOrders := coreInOrders[x := Get(coreInOrders, x) + delta];
    }

    /** Creates an order out of its seller's balance. */
    method FundOrder(id: nat, o: LimitOrder)
      requires id !in orders && o.deferredFee == 0 && o.deferredPaid == 0
      requires Get(balances, (o.seller, o.sells)) >= o.forSale
      modifies this`balances, this`orders, this`coreInOrders
      ensures orders == old(orders)[id := o]
      ensures forall b :: Net(b) == old(Net(b))
      ensures forall x :: CoreGap(x) == old(CoreGap(x))
      ensures balances == old(if o.forSale == 0 then balances
                              else balances[(o.seller, o.sells) := Get(balances, (o.seller, o.sells)) - o.forSale])
    {
      hide Net, CoreGap;
      if o.sells == CORE {
        AdjustCoreInOrders(o.seller, o.forSale);
      }
      AdjustBalance(o.seller, o.sells, 0 - o.forSale);
      SetOrder(id, o);
    }

    /** Charges the creation fee of an order and defers it: in core, or in another asset with the core taken from its fee pool. */
    method DeferFee(id: nat, coreFee: nat, feeAsset: Asset, feePaid: nat)
      requires id in orders && orders[id].deferredFee == 0 && orders[id].deferredPaid == 0
      requires feeAsset == CORE ==> feePaid == 0
      requires Get(balances, (orders[id].seller, feeAsset)) >= if feeAsset == CORE then coreFee else feePaid
      requires feeAsset != CORE ==> Get(feePool, feeAsset) >= coreFee
      modifies this`balances, this`orders, this`feePool
      ensures orders == old(orders[id := orders[id].(deferredFee := coreFee, deferredPaid := feePaid, feeAsset := feeAsset)])
      ensures Swapped(old(balances), balances, old(orders[id].seller), feeAsset, if feeAsset == CORE then coreFee else feePaid, feeAsset, 0)
      ensures forall b :: Net(b) == old(Net(b))
      ensures forall x :: CoreGap(x) == old(CoreGap(x))
    {
      hide Net, CoreGap;
      var o := orders[id];
      if feeAsset == CORE {
        AdjustBalance(o.seller, CORE, 0 - coreFee);
      } else {
        AdjustBalance(o.seller, feeAsset, 0 - feePaid);
        DrainFeePool(feeAsset, coreFee);
      }
      SetOrder(id, o.(deferredFee := coreFee, deferredPaid := feePaid, feeAsset := feeAsset));
    }

    /** Balances of everybody but `x`. */
    ghost function OthersBalances(x: Account): map<(Account, Asset), nat>
      reads this`balances
    {
      map k | k in balances && k.0 != x :: balances[k]
    }

    /**
     * Settles the fees deferred at creation: a maker gets its discount back, the rest is
     * collected.  Nothing is created or lost.
     */
    method CollectDeferredFees(o: LimitOrder, isMaker: bool)
      modifies this`balances, this`accumulatedFees, this`feePool, this`pending
      ensures forall b :: Net(b) == old(Net(b)) + (if b == CORE then o.deferredFee else 0)
                                                + (if b == o.feeAsset then o.deferredPaid else 0)
      ensures OthersBalances(o.seller) == old(OthersBalances(o.seller)) && NoLess(old(balances), balances)
    {
      hide Net, CoreGap, Cut;
      var deferredFee := o.deferredFee;
      if o.deferredPaid > 0 {
        deferredFee := CollectPaidFee(o, isMaker);
      }
      if o.deferredFee > 0 {
        if o.deferredPaid == 0 && isMaker && p.makerDiscount > 0 {
          var refund := Cut(deferredFee, p.makerDiscount);
          AdjustBalance(o.seller, CORE, refund);
          deferredFee := deferredFee - refund;
        }
        if deferredFee > 0 {
          PayFee(o.seller, deferredFee);
        }
      }
    }

    /** The same for a fee not paid in core; returns what is left of its value in core. */
    method CollectPaidFee(o: LimitOrder, isMaker: bool) returns (left: nat)
      requires o.deferredPaid > 0
      modifies this`balances, this`accumulatedFees, this`feePool
      ensures left <= o.deferredFee
      ensures forall b :: Net(b) == old(Net(b)) + (if b == CORE then o.deferredFee - left else 0)
                                                + (if b == o.feeAsset then o.deferredPaid else 0)
      ensures OthersBalances(o.seller) == old(OthersBalances(o.seller)) && NoLess(old(balances), balances)
    {
      hide Net, CoreGap, Cut;
      var paid, poolRefund := o.deferredPaid, 0;
      left := o.deferredFee;
      if isMaker && p.makerDiscount > 0 {
        var refund := Cut(paid, p.makerDiscount);
        if refund > 0 {
          AdjustBalance(o.seller, o.feeAsset, refund);
          paid := paid - refund;
          poolRefund := Cut(left, p.makerDiscount);
          left := left - poolRefund;
        }
      }
      AccumulateFees(o.feeAsset, paid);
      RefillFeePool(o.feeAsset, poolRefund);
    }

    /** Credits what an order received and takes what it paid off the record of core on the books. */
    method PayOrder(x: Account, wants: Asset, receives: nat, sells: Asset, pays: nat)
      modifies this`balances, this`coreInOrders
      ensures forall b :: Net(b) == old(Net(b)) + if b == wants then receives else 0
      ensures forall y :: CoreGap(y) == old(CoreGap(y)) - if y == x && sells == CORE then pays else 0
      ensures balances == old(if receives == 0 then balances else balances[(x, wants) := Get(balances, (x, wants)) + receives])
      ensures OthersBalances(x) == old(OthersBalances(x))
    {
      hide Net, CoreGap;
      if sells == CORE {
        AdjustCoreInOrders(x, 0 - pays);
      }
      AdjustBalance(x, wants, receives);
    }

    /**
     * Fills a limit order: it gives `pays` of what it sells to the other party and its
     * seller gets `receives` of what it wants less the market fee.
     */
    method FillLimitOrder(id: nat, pays: nat, receives: nat, cull: bool, isMaker: bool) returns (filled: bool)
      requires id in orders && pays <= orders[id].forSale
      modifies this`balances, this`vesting, this`accumulatedFees, this`feePool, this`pending, this`orders, this`coreInOrders
      ensures forall b :: Net(b) == old(Net(b)) + (if b == old(orders[id].wants) then receives else 0)
                                                - (if b == old(orders[id].sells) then pays else 0)
      ensures forall x :: CoreGap(x) == old(CoreGap(x))
      ensures OthersBalances(old(orders[id].seller)) == old(OthersBalances(orders[id].seller)) && NoLess(old(balances), balances)
      ensures var o := old(orders[id]);
              Credited(old(balances), balances, o.seller, o.wants, receives - MarketFee(o.wants, receives, isMaker))
      ensures Reduced(old(orders), id, pays, cull, orders, filled)
    {
      hide Net, CoreGap;
      var order := orders[id];
      var fees := PayMarketFees(order.seller, order.wants, receives, isMaker);
      PayOrder(order.seller, order.wants, receives - fees, order.sells, pays);
      CollectDeferredFees(order, isMaker);
      filled := TakeFromOrder(id, pays, cull);
    }

    /** Takes what was paid and the settled fees out of an order; the order goes when nothing useful is left. */
    method TakeFromOrder(id: nat, pays: nat, cull: bool) returns (filled: bool)
      requires id in orders && pays <= orders[id].forSale
      modifies this`balances, this`accumulatedFees, this`feePool, this`pending, this`orders, this`coreInOrders
      ensures forall b :: Net(b) == old(Net(b)) - (if b == old(orders[id].sells) then pays else 0)
                                                - (if b == CORE then old(orders[id].deferredFee) else 0)
                                                - (if b == old(orders[id].feeAsset) then old(orders[id].deferredPaid) else 0)
      ensures forall x :: CoreGap(x) == old(CoreGap(x))
                          + if x == old(orders[id].seller) && old(orders[id].sells) == CORE then pays else 0
      ensures OthersBalances(old(orders[id].seller)) == old(OthersBalances(orders[id].seller)) && NoLess(old(balances), balances)
      ensures Reduced(old(orders), id, pays, cull, orders, filled)
    {
      hide Net, CoreGap;
      var order := orders[id];
      if pays == order.forSale {
        RemoveOrder(id);
        return true;
      }
      SetOrder(id, order.(forSale := order.forSale - pays, deferredFee := 0, deferredPaid := 0));
      if cull {
        filled := MaybeCullSmallOrder(id);
        assert filled ==> orders == old(orders) - {id};
        return;
      }
      return false;
    }

    /** Cancels an order that is too small to receive anything at its own price. */
    method MaybeCullSmallOrder(id: nat) returns (culled: bool)
      requires id in orders
      modifies this`balances, this`accumulatedFees, this`feePool, this`pending, this`orders, this`coreInOrders
      ensures forall b :: Net(b) == old(Net(b))
      ensures forall x :: CoreGap(x) == old(CoreGap(x))
      ensures culled == old(orders[id].ToReceive() == 0)
      ensures orders == if culled then old(orders) - {id} else old(orders)
      ensures OthersBalances(old(orders[id].seller)) == old(OthersBalances(orders[id].seller)) && NoLess(old(balances), balances)
    {
      hide Net, CoreGap;
      if orders[id].ToReceive() == 0 {
        CancelLimitOrder(id, true);
        return true;
      }
      return false;
    }

    /**
     * Removes an order and returns what it holds to its seller, except for a cancellation
     * fee, taken from the deferred fee only and only when the chain itself cancels it.
     */
    method CancelLimitOrder(id: nat, byChain: bool)
      requires id in orders
      modifies this`balances, this`accumulatedFees, this`feePool, this`pending, this`orders, this`coreInOrders
      ensures forall b :: Net(b) == old(Net(b))
      ensures forall x :: CoreGap(x) == old(CoreGap(x))
      ensures orders == old(orders) - {id}
      ensures OthersBalances(old(orders[id].seller)) == old(OthersBalances(orders[id].seller)) && NoLess(old(balances), balances)
      ensures Credited(old(balances), balances, old(orders[id].seller), old(orders[id].sells), old(orders[id].forSale))
    {
      hide Net, CoreGap;
      var order := orders[id];
      PayOrder(order.seller, order.sells, order.forSale, order.sells, order.forSale);
      RefundDeferredFees(order, byChain);
      RemoveOrder(id);
    }

    /** Returns the deferred fees of a cancelled order, less the cancellation fee. */
    method RefundDeferredFees(order: LimitOrder, byChain: bool)
      modifies this`balances, this`accumulatedFees, this`feePool, this`pending
      ensures forall b :: Net(b) == old(Net(b)) + (if b == CORE then order.deferredFee else 0)
                                                + (if b == order.feeAsset then order.deferredPaid else 0)
      ensures OthersBalances(order.seller) == old(OthersBalances(order.seller)) && NoLess(old(balances), balances)
    {
      hide Net, CoreGap;
      var deferredFee, deferredPaid := order.deferredFee, order.deferredPaid;
      if byChain && deferredFee > 0 {
        deferredFee, deferredPaid := ChargeCancelFee(order);
      }
      if order.deferredPaid == 0 {
        AdjustBalance(order.seller, CORE, deferredFee);
      } else {
        AdjustBalance(order.seller, order.feeAsset, deferredPaid);
        RefillFeePool(order.feeAsset, deferredFee);
      }
    }

    /** Charges the cancellation fee to the deferred fee, and the same part of what was paid for that; returns the rest of both. */
    method ChargeCancelFee(order: LimitOrder) returns (feeLeft: nat, paidLeft: nat)
      requires order.deferredFee > 0
      modifies this`accumulatedFees, this`pending
      ensures feeLeft == (if p.cancelFee > order.deferredFee then 0 else order.deferredFee - p.cancelFee) && paidLeft <= order.deferredPaid
      ensures forall b :: Net(b) == old(Net(b)) + (if b == CORE then order.deferredFee - feeLeft else 0)
                                                + (if b == order.feeAsset then order.deferredPaid - paidLeft else 0)
    {
      hide Net, CoreGap;
      feeLeft, paidLeft := order.deferredFee, order.deferredPaid;
      var cancelFee := if p.cancelFee > order.deferredFee then order.deferredFee else p.cancelFee;
      if cancelFee == 0 { return; }
      PayFee(order.seller, cancelFee);
      feeLeft := feeLeft - cancelFee;
      if paidLeft > 0 {
        var part := DivUp(paidLeft * cancelFee, order.deferredFee);
        PartOfPaid(paidLeft, cancelFee, order.deferredFee);
        AccumulateFees(order.feeAsset, part);
        paidLeft := paidLeft - part;
      }
    }

    /** The part of the paid fee kept on cancellation is positive and never more than was paid. */
    static lemma PartOfPaid(paid: nat, part: nat, whole: nat)
      requires 0 < part <= whole && paid > 0
      ensures 0 < DivUp(paid * part, whole) <= paid
    {
      MulMono(part, whole, paid);
      DivUpAtMost(paid * part, whole, paid);
      DivUpAtMost(paid * part, whole, 0);
      assert paid * part > 0;
    }

    /** Fills both sides of a trade between two orders that sell what the other wants. */
    method SwapFills(taker: nat, maker: nat, pays: nat, receives: nat, cullTaker: bool)
      requires taker in orders && maker in orders && taker != maker
      requires orders[taker].sells == orders[maker].wants && orders[taker].wants == orders[maker].sells
      requires pays <= orders[taker].forSale && receives <= orders[maker].forSale
      modifies this`balances, this`vesting, this`accumulatedFees, this`feePool, this`pending, this`orders, this`coreInOrders
      ensures forall b :: Net(b) == old(Net(b))
      ensures forall x :: CoreGap(x) == old(CoreGap(x))
      ensures orders.Keys <= old(orders.Keys)
      ensures orders.Keys >= old(orders.Keys) - {taker, maker}
      ensures forall id :: id in old(orders) && id != taker && id != maker ==> id in orders && orders[id] == old(orders)[id]
      ensures var left := old(orders[taker].forSale - pays);
              && (taker !in orders <==> left == 0 || (cullTaker && ToQuote(left, old(orders[taker].price)) == 0))
              && (taker in orders ==> orders[taker] == old(orders[taker]).(forSale := left, deferredFee := 0, deferredPaid := 0))
      ensures var left := old(orders[maker].forSale - receives);
              && (maker !in orders <==> left == 0 || ToQuote(left, old(orders[maker].price)) == 0)
              && (maker in orders ==> orders[maker] == old(orders[maker]).(forSale := left, deferredFee := 0, deferredPaid := 0))
      ensures NoLess(old(balances), balances)
      ensures var o := old(orders[taker]);
              Credited(old(balances), balances, o.seller, o.wants, receives - MarketFee(o.wants, receives, false))
      ensures var o := old(orders[maker]);
              Credited(old(balances), balances, o.seller, o.wants, pays - MarketFee(o.wants, pays, true))
    {
      hide Net, CoreGap;
      var takerFilled := FillLimitOrder(taker, pays, receives, cullTaker, false);
      var makerFilled := FillLimitOrder(maker, receives, pays, true, true);
    }

    // Margin positions

    function CallHolds(x: Account): int
      reads this`calls
    {
      if x in calls then calls[x].collateral else 0
    }

    function CallOwes(x: Account): int
      reads this`calls
    {
      if x in calls then calls[x].debt else 0
    }

    method SetCall(x: Account, c: Position)
      modifies this`calls
      ensures calls == old(calls)[x := c]
      ensures forall b :: Net(b) == old(Net(b)) + if b == p.backing then c.collateral - old(CallHolds(x)) else 0
      ensures TotalDebt() == old(TotalDebt()) + c.debt - old(CallOwes(x))
      ensures DebtGap() == old(DebtGap()) - c.debt + old(CallOwes(x))
      ensures forall y :: CoreGap(y) == old(CoreGap(y))
                          - if y == x && p.backing == CORE then c.collateral - old(CallHolds(x)) else 0
    {
      SumUpdate(calls, x, c, CollateralOf());
      SumUpdate(calls, x, c, DebtOf());
      calls := calls[x := c];
    }

    method RemoveCall(x: Account)
      requires x in calls
      modifies this`calls
      ensures calls == old(calls) - {x}
      ensures forall b :: Net(b) == old(Net(b)) - if b == p.backing then old(CallHolds(x)) else 0
      ensures TotalDebt() == old(TotalDebt()) - old(CallOwes(x))
      ensures DebtGap() == old(DebtGap()) + old(CallOwes(x))
      ensures forall y :: CoreGap(y) == old(CoreGap(y)) + if y == x && p.backing == CORE then old(CallHolds(x)) else 0
    {
      SumRemove(calls, x, CollateralOf());
      SumRemove(calls, x, DebtOf());
      calls := calls - {x};
    }

    method AdjustSupply(a: Asset, delta: int)
      modifies this`supply
      ensures supply == old(supply[a := Get(supply, a) + delta])
      ensures forall b :: Net(b) == old(Net(b)) - if b == a then delta else 0
      ensures DebtGap() == old(DebtGap()) + if a == p.mia then delta else 0
    {
      supply := supply[a := Get(supply, a) + delta];
    }

    method AccumulateCollateralFee(amount: nat)
      modifies this`collateralFees
      ensures collateralFees == old(collateralFees) + amount
      ensures forall b :: Net(b) == old(Net(b)) + if b == p.backing then amount else 0
    {
      collateralFees := collateralFees + amount;
    }

    /**
     * Covers `receives` of a position's debt for `pays` of its collateral, of which `fee`
     * goes to the issuer and the rest to the other party.  When the whole debt is covered
     * the borrower gets what is left of the collateral.
     */
    method FillCallOrder(x: Account, pays: nat, receives: nat, fee: nat, reduceSupply: bool) returns (filled: bool)
      requires x in calls && pays <= calls[x].collateral && receives <= calls[x].debt
      modifies this`balances, this`calls, this`supply, this`collateralFees, this`coreInOrders
      ensures forall b :: Net(b) == old(Net(b)) + (if b == p.backing then fee - pays else 0)
                                                + (if b == p.mia && reduceSupply then receives else 0)
      ensures DebtGap() == old(DebtGap()) + if reduceSupply then 0 else receives
      ensures TotalDebt() == old(TotalDebt()) - receives
      ensures forall y :: CoreGap(y) == old(CoreGap(y))
      ensures filled == old(receives == calls[x].debt)
      ensures calls == CallsAfter(old(calls), x, pays, receives)
      ensures balances == old(if receives == calls[x].debt && pays < calls[x].collateral
                              then balances[(x, p.backing) := Get(balances, (x, p.backing)) + (calls[x].collateral - pays)]
                              else balances)
      ensures supply == old(if reduceSupply then supply[p.mia := Get(supply, p.mia) - receives] else supply)
      ensures collateralFees == old(collateralFees) + fee
    {
      hide Net, CoreGap;
      TakeFromCall(x, pays, receives, reduceSupply);
      AccumulateCollateralFee(fee);
      filled := calls[x].debt == 0;
      if filled {
        CloseCall(x);
        assert calls == old(calls) - {x};
      }
    }

    method TakeFromCall(x: Account, pays: nat, receives: nat, reduceSupply: bool)
      requires x in calls && pays <= calls[x].collateral && receives <= calls[x].debt
      modifies this`calls, this`supply, this`coreInOrders
      ensures calls == old(calls[x := calls[x].(collateral := calls[x].collateral - pays, debt := calls[x].debt - receives)])
      ensures supply == old(if reduceSupply then supply[p.mia := Get(supply, p.mia) - receives] else supply)
      ensures forall b :: Net(b) == old(Net(b)) - (if b == p.backing then pays else 0)
                                                + (if b == p.mia && reduceSupply then receives else 0)
      ensures DebtGap() == old(DebtGap()) + if reduceSupply then 0 else receives
      ensures TotalDebt() == old(TotalDebt()) - receives
      ensures forall y :: CoreGap(y) == old(CoreGap(y))
    {
      hide Net, CoreGap;
      var c := calls[x];
      SetCall(x, c.(collateral := c.collateral - pays, debt := c.debt - receives));
      if reduceSupply {
        AdjustSupply(p.mia, 0 - receives);
      }
      if p.backing == CORE {
        AdjustCoreInOrders(x, 0 - pays);
      }
    }

    /** Returns the collateral of a position without debt and removes it. */
    method CloseCall(x: Account)
      requires x in calls && calls[x].debt == 0
      modifies this`balances, this`calls, this`coreInOrders
      ensures calls == old(calls) - {x}
      ensures balances == old(if calls[x].collateral == 0 then balances
                              else balances[(x, p.backing) := Get(balances, (x, p.backing)) + calls[x].collateral])
      ensures forall b :: Net(b) == old(Net(b))
      ensures DebtGap() == old(DebtGap()) && TotalDebt() == old(TotalDebt())
      ensures forall y :: CoreGap(y) == old(CoreGap(y))
    {
      hide Net, CoreGap, TotalDebt, DebtGap;
      var freed: int := calls[x].collateral;
      AdjustBalance(x, p.backing, freed);
      if p.backing == CORE {
        AdjustCoreInOrders(x, 0 - freed);
      }
      RemoveCall(x);
    }

    /** Issues debt to an account or, when negative, retires it. */
    method IssueDebt(x: Account, delta: int)
      requires Get(balances, (x, p.mia)) + delta >= 0
      modifies this`balances, this`supply
      ensures balances == old(if delta == 0 then balances else balances[(x, p.mia) := Get(balances, (x, p.mia)) + delta])
      ensures supply == old(supply[p.mia := Get(supply, p.mia) + delta])
      ensures forall b :: Net(b) == old(Net(b))
      ensures DebtGap() == old(DebtGap()) + delta
    {
      hide Net, CoreGap;
      AdjustBalance(x, p.mia, delta);
      AdjustSupply(p.mia, delta);
    }

    /** Takes collateral from an account's balance or, when negative, returns it. */
    method LockCollateral(x: Account, delta: int)
      requires Get(balances, (x, p.backing)) - delta >= 0
      modifies this`balances, this`coreInOrders
      ensures balances == old(if delta == 0 then balances else balances[(x, p.backing) := Get(balances, (x, p.backing)) - delta])
      ensures forall b :: Net(b) == old(Net(b)) - if b == p.backing then delta else 0
      ensures forall y :: CoreGap(y) == old(CoreGap(y)) + if y == x && p.backing == CORE then delta else 0
    {
      hide Net, CoreGap;
      AdjustBalance(x, p.backing, 0 - delta);
      if p.backing == CORE {
        AdjustCoreInOrders(x, delta);
      }
    }

    /** Moves collateral and debt between an account and its position, issuing or retiring supply. */
    method ChangePosition(x: Account, deltaCollateral: int, deltaDebt: int, target: Option<nat>)
      requires p.Valid()
      requires CallHolds(x) + deltaCollateral >= 0 && CallOwes(x) + deltaDebt >= 0
      requires Get(balances, (x, p.mia)) + deltaDebt >= 0 && Get(balances, (x, p.backing)) - deltaCollateral >= 0
      modifies this`balances, this`calls, this`supply, this`coreInOrders
      ensures calls == old(calls[x := Position(CallHolds(x) + deltaCollateral, CallOwes(x) + deltaDebt, target)])
      ensures supply == old(supply[p.mia := Get(supply, p.mia) + deltaDebt])
      ensures Swapped(old(balances), balances, x, p.backing, deltaCollateral, p.mia, deltaDebt)
      ensures forall b :: Net(b) == old(Net(b))
      ensures DebtGap() == old(DebtGap())
      ensures forall y :: CoreGap(y) == old(CoreGap(y))
    {
      hide Net, CoreGap, Swapped, TotalDebt, DebtGap;
      ghost var before := balances;
      IssueDebt(x, deltaDebt);
      ghost var between := balances;
      Moved(between, x, p.backing, deltaCollateral);
      LockCollateral(x, deltaCollateral);
      PaidThenMoved(before, between, balances, x, p.mia, 0 - deltaDebt, p.backing, 0 - deltaCollateral);
      SetCall(x, Position(CallHolds(x) + deltaCollateral, CallOwes(x) + deltaDebt, target));
    }

    // Force settlement orders

    method SetSettle(id: nat, o: SettleOrder)
      modifies this`settles
      ensures settles == old(settles)[id := o]
      ensures forall b :: Net(b) == old(Net(b)) + if b == p.mia then o.balance - old(if id in settles then settles[id].balance else 0) else 0
    {
      SumUpdate(settles, id, o, SettleBalance());
      settles := settles[id := o];
    }

    method RemoveSettle(id: nat)
      requires id in settles
      modifies this`settles
      ensures settles == old(settles) - {id}
      ensures forall b :: Net(b) == old(Net(b)) - if b == p.mia then old(settles[id].balance) else 0
    {
      SumRemove(settles, id, SettleBalance());
      settles := settles - {id};
    }

    method CancelSettleOrder(id: nat)
      requires id in settles
      modifies this`balances, this`settles
      ensures settles == old(settles) - {id}
      ensures forall b :: Net(b) == old(Net(b))
      ensures balances == old(if settles[id].balance == 0 then balances
                              else balances[(settles[id].owner, p.mia) := Get(balances, (settles[id].owner, p.mia)) + settles[id].balance])
    {
      hide Net, CoreGap;
      AdjustBalance(settles[id].owner, p.mia, settles[id].balance);
      RemoveSettle(id);
    }

    /** Pays settled collateral to an account, less the market fee and the force settlement fee. */
    method PaySettler(x: Account, receives: nat, isMaker: bool, payForceSettleFee: bool)
      modifies this`balances, this`vesting, this`accumulatedFees, this`collateralFees
      ensures forall b :: Net(b) == old(Net(b)) + if b == p.backing then receives else 0
      ensures OthersBalances(x) == old(OthersBalances(x)) && NoLess(old(balances), balances)
      ensures forall k :: Get(balances, k) == old(Get(balances, k))
                                              + if k == (x, p.backing) then SettleProceeds(receives, isMaker, payForceSettleFee) else 0
    {
      hide Net, CoreGap;
      var marketFees := PayMarketFees(x, p.backing, receives, isMaker);
      var settleFee := if payForceSettleFee then Cut(receives - marketFees, p.forceSettleFee) else 0;
      AccumulateCollateralFee(settleFee);
      AdjustBalance(x, p.backing, receives - marketFees - settleFee);
    }

    /** Delivers `receives` of collateral, less fees, to a settle order's owner for `pays` of its balance. */
    method FillSettleOrder(id: nat, pays: nat, receives: nat, isMaker: bool, payForceSettleFee: bool) returns (filled: bool)
      requires id in settles && pays <= settles[id].balance
      modifies this`balances, this`vesting, this`accumulatedFees, this`collateralFees, this`settles
      ensures forall b :: Net(b) == old(Net(b)) + (if b == p.backing then receives else 0)
                                                - (if b == p.mia then pays else 0)
      ensures filled == old(pays == settles[id].balance)
      ensures settles == if filled then old(settles) - {id}
                         else old(settles[id := settles[id].(balance := settles[id].balance - pays)])
      ensures OthersBalances(old(settles[id].owner)) == old(OthersBalances(settles[id].owner)) && NoLess(old(balances), balances)
      ensures Get(balances, (old(settles[id].owner), p.backing))
              == old(Get(balances, (settles[id].owner, p.backing))) + SettleProceeds(receives, isMaker, payForceSettleFee)
    {
      hide Net, CoreGap;
      var order := settles[id];
      PaySettler(order.owner, receives, isMaker, payForceSettleFee);
      filled := pays == order.balance;
      if filled {
        RemoveSettle(id);
      } else {
        SetSettle(id, order.(balance := order.balance - pays));
      }
    }

    /** What remains of settled collateral after the market fee and the force settlement fee. */
    function SettleProceeds(receives: nat, isMaker: bool, payForceSettleFee: bool): (r: nat)
      ensures r <= receives
    {
      var afterMarket := receives - MarketFee(p.backing, receives, isMaker);
      afterMarket - if payForceSettleFee then Cut(afterMarket, p.forceSettleFee) else 0
    }

    // Collateral bids

    method SetBid(x: Account, o: Bid)
      modifies this`bids
      ensures bids == old(bids)[x := o]
      ensures forall b :: Net(b) == old(Net(b)) + if b == p.backing then o.collateral - old(if x in bids then bids[x].collateral else 0) else 0
    {
      SumUpdate(bids, x, o, BidCollateral());
      bids := bids[x := o];
    }

    method RemoveBid(x: Account)
      requires x in bids
      modifies this`bids
      ensures bids == old(bids) - {x}
      ensures forall b :: Net(b) == old(Net(b)) - if b == p.backing then old(bids[x].collateral) else 0
    {
      SumRemove(bids, x, BidCollateral());
      bids := bids - {x};
    }

    method CancelBid(x: Account)
      requires x in bids
      modifies this`balances, this`bids
      ensures bids == old(bids) - {x}
      ensures forall b :: Net(b) == old(Net(b))
      ensures balances == old(if bids[x].collateral == 0 then balances
                              else balances[(x, p.backing) := Get(balances, (x, p.backing)) + bids[x].collateral])
    {
      hide Net, CoreGap;
      AdjustBalance(x, p.backing, bids[x].collateral);
      RemoveBid(x);
    }

    /** Turns a bid into a position, with collateral from the settlement fund added. */
    method ExecuteBid(x: Account, debtCovered: nat, fromFund: nat)
      requires x in bids && x !in calls
      modifies this`bids, this`calls, this`coreInOrders
      ensures bids == old(bids) - {x}
      ensures calls == old(calls)[x := Position(old(bids[x].collateral) + fromFund, debtCovered, None)]
      ensures forall b :: Net(b) == old(Net(b)) + if b == p.backing then fromFund else 0
      ensures TotalDebt() == old(TotalDebt()) + debtCovered
      ensures DebtGap() == old(DebtGap()) - debtCovered
      ensures forall y :: CoreGap(y) == old(CoreGap(y))
    {
      hide Net, CoreGap;
      var collateral := bids[x].collateral + fromFund;
      SetCall(x, Position(collateral, debtCovered, None));
      if p.backing == CORE {
        AdjustCoreInOrders(x, collateral);
      }
      RemoveBid(x);
    }

    // Margin calls

    /** A limit order selling debt is filled from a position, which pays the difference as fee. */
    method CoverWithLimit(limit: nat, x: Account, covers: nat, receives: nat, pays: nat, cull: bool, limitIsMaker: bool)
      returns (limitFilled: bool, callFilled: bool)
      requires limit in orders && x in calls && orders[limit].sells == p.mia && orders[limit].wants == p.backing
      requires covers <= orders[limit].forSale && covers <= calls[x].debt && receives <= pays <= calls[x].collateral
      modifies this`balances, this`vesting, this`accumulatedFees, this`feePool, this`pending, this`orders,
               this`coreInOrders, this`calls, this`supply, this`collateralFees
      ensures forall b :: Net(b) == old(Net(b))
      ensures DebtGap() == old(DebtGap()) && TotalDebt() == old(TotalDebt()) - covers
      ensures forall y :: CoreGap(y) == old(CoreGap(y))
      ensures Reduced(old(orders), limit, covers, cull, orders, limitFilled)
      ensures callFilled == old(covers == calls[x].debt)
      ensures calls == CallsAfter(old(calls), x, pays, covers)
      ensures collateralFees == old(collateralFees) + (pays - receives) && NoLess(old(balances), balances)
      ensures var o := old(orders[limit]);
              Credited(old(balances), balances, o.seller, o.wants, receives - MarketFee(o.wants, receives, limitIsMaker))
    {
      hide Net, CoreGap;
      limitFilled := FillLimitOrder(limit, covers, receives, cull, limitIsMaker);
      callFilled := FillCallOrder(x, pays, covers, pays - receives, true);
    }

    /** A settle order is filled from a position, which pays the difference as fee. */
    method CoverWithSettle(id: nat, x: Account, covers: nat, receives: nat, pays: nat, cull: bool, settleIsMaker: bool,
                           payForceSettleFee: bool)
      requires id in settles && x in calls
      requires covers <= settles[id].balance && covers <= calls[x].debt && receives <= pays <= calls[x].collateral
      modifies this`balances, this`vesting, this`accumulatedFees, this`settles,
               this`coreInOrders, this`calls, this`supply, this`collateralFees
      ensures forall b :: Net(b) == old(Net(b))
      ensures DebtGap() == old(DebtGap()) && TotalDebt() == old(TotalDebt()) - covers
      ensures forall y :: CoreGap(y) == old(CoreGap(y))
      ensures calls == CallsAfter(old(calls), x, pays, covers)
      ensures settles == if cull || covers == old(settles[id].balance) then old(settles) - {id}
                         else old(settles[id := settles[id].(balance := settles[id].balance - covers)])
      ensures NoLess(old(balances), balances)
      ensures Credited(old(balances), balances, old(settles[id].owner), p.backing, SettleProceeds(receives, settleIsMaker, payForceSettleFee))
    {
      hide Net, CoreGap, TotalDebt, DebtGap, SettleProceeds, OthersBalances;
      var callFilled := FillCallOrder(x, pays, covers, pays - receives, true);
      FillAndCullSettle(id, covers, receives, cull, settleIsMaker, payForceSettleFee);
    }

    /** Fills a settle order and returns the rest of it if that is too small. */
    method FillAndCullSettle(id: nat, pays: nat, receives: nat, cull: bool, isMaker: bool, payForceSettleFee: bool)
      requires id in settles && pays <= settles[id].balance
      modifies this`balances, this`vesting, this`accumulatedFees, this`collateralFees, this`settles
      ensures forall b :: Net(b) == old(Net(b)) + (if b == p.backing then receives else 0)
                                                - (if b == p.mia then pays else 0)
      ensures settles == if cull || pays == old(settles[id].balance) then old(settles) - {id}
                         else old(settles[id := settles[id].(balance := settles[id].balance - pays)])
      ensures NoLess(old(balances), balances)
      ensures Credited(old(balances), balances, old(settles[id].owner), p.backing, SettleProceeds(receives, isMaker, payForceSettleFee))
    {
      hide Net, CoreGap, SettleProceeds, OthersBalances;
      var filled := FillSettleOrder(id, pays, receives, isMaker, payForceSettleFee);
      if cull && !filled {
        CancelSettleOrder(id);
        assert settles == old(settles) - {id};
      }
    }

    /**
     * Closes a position into the pool: the pool takes its debt and `received` of its
     * collateral, the rest is fee; `order` becomes the order selling the pool.
     */
    method SettleIntoPool(x: Account, received: nat, order: Option<DebtOrder>)
      requires x in calls && received <= calls[x].collateral
      modifies this`balances, this`calls, this`supply, this`collateralFees, this`coreInOrders, this`pool, this`debtOrder
      ensures debtOrder == order
      ensures calls == old(calls) - {x} && supply == old(supply)
      ensures pool == old(Pool(pool.debt + calls[x].debt, pool.fund + received))
      ensures forall b :: Net(b) == old(Net(b))
      ensures DebtGap() == old(DebtGap()) && TotalDebt() == old(TotalDebt() - calls[x].debt)
      ensures forall y :: CoreGap(y) == old(CoreGap(y))
      ensures NoLess(old(balances), balances)
    {
      hide Net, CoreGap;
      var c := calls[x];
      SetDebtOrder(order);
      GrowPool(c.debt, received);
      var filled := FillCallOrder(x, c.collateral, c.debt, c.collateral - received, false);
      assert filled;
    }

    method SetDebtOrder(order: Option<DebtOrder>)
      modifies this`debtOrder
      ensures debtOrder == order
    {
      debtOrder := order;
    }

    method GrowPool(debt: nat, fund: nat)
      modifies this`pool
      ensures pool == old(Pool(pool.debt + debt, pool.fund + fund))
      ensures forall b :: Net(b) == old(Net(b)) + if b == p.backing then fund else 0
      ensures DebtGap() == old(DebtGap()) - debt
    {
      pool := Pool(pool.debt + debt, pool.fund + fund);
    }

    /**
     * A limit order sells `covers` debt to the pool for `receives` collateral; the pool
     * gives up `poolPays`, the difference being the issuer's collateral fee, and `order`
     * becomes the order selling the pool.
     */
    method SellToPool(limit: nat, covers: nat, receives: nat, poolPays: nat, order: Option<DebtOrder>, cull: bool,
                      limitIsMaker: bool)
      returns (filled: bool)
      requires p.Valid()
      requires limit in orders && orders[limit].sells == p.mia && orders[limit].wants == p.backing
      requires covers <= orders[limit].forSale && covers <= pool.debt && receives <= poolPays <= pool.fund
      modifies this`balances, this`vesting, this`accumulatedFees, this`feePool, this`pending, this`orders,
               this`coreInOrders, this`supply, this`collateralFees, this`pool, this`debtOrder
      ensures debtOrder == order
      ensures pool == old(Pool(pool.debt - covers, pool.fund - poolPays))
      ensures supply == old(supply[p.mia := Get(supply, p.mia) - covers])
      ensures collateralFees == old(collateralFees) + (poolPays - receives)
      ensures forall b :: Net(b) == old(Net(b))
      ensures DebtGap() == old(DebtGap())
      ensures forall y :: CoreGap(y) == old(CoreGap(y))
      ensures Reduced(old(orders), limit, covers, cull, orders, filled)
      ensures NoLess(old(balances), balances)
      ensures var o := old(orders[limit]);
              Credited(old(balances), balances, o.seller, o.wants, receives - MarketFee(o.wants, receives, limitIsMaker))
    {
      hide Net, CoreGap;
      filled := FillLimitOrder(limit, covers, receives, cull, limitIsMaker);
      DrainPool(covers, receives, poolPays);
      SetDebtOrder(order);
    }

    /** Retires `covers` of the pool's debt; `receives` of the `poolPays` given up has been delivered, the rest is fee. */
    method DrainPool(covers: nat, receives: nat, poolPays: nat)
      requires covers <= pool.debt && receives <= poolPays <= pool.fund
      modifies this`supply, this`collateralFees, this`pool
      ensures pool == old(Pool(pool.debt - covers, pool.fund - poolPays))
      ensures supply == old(supply[p.mia := Get(supply, p.mia) - covers])
      ensures collateralFees == old(collateralFees) + (poolPays - receives)
      ensures forall b :: Net(b) == old(Net(b)) + (if b == p.mia then covers else 0) - (if b == p.backing then receives else 0)
      ensures DebtGap() == old(DebtGap())
    {
      AdjustSupply(p.mia, 0 - covers);
      AccumulateCollateralFee(poolPays - receives);
      pool := Pool(pool.debt - covers, pool.fund - poolPays);
    }

    /**
     * An account gives up `paid` debt for `out` collateral from a fund that has already
     * been reduced; `fee` of it goes to the issuer, and the market fee off the rest.
     */
    method RetireDebt(x: Account, paid: nat, out: nat, fee: nat)
      requires Get(balances, (x, p.mia)) >= paid && fee <= out
      modifies this`balances, this`vesting, this`accumulatedFees, this`collateralFees, this`supply
      ensures supply == old(supply[p.mia := Get(supply, p.mia) - paid])
      ensures forall b :: Net(b) == old(Net(b)) + if b == p.backing then out else 0
      ensures DebtGap() == old(DebtGap()) - paid
      ensures Swapped(old(balances), balances, x, p.mia, paid, p.backing, SettleProceeds(out - fee, false, false))
    {
      hide Net, CoreGap;
      IssueDebt(x, 0 - paid);
      AccumulateCollateralFee(fee);
      PaySettler(x, out - fee, false, false);
    }

    /** The same out of the individual settlement pool. */
    method RetirePoolDebt(x: Account, paid: nat, out: nat, fee: nat)
      requires Get(balances, (x, p.mia)) >= paid && fee <= out && paid <= pool.debt && out <= pool.fund
      modifies this`balances, this`vesting, this`accumulatedFees, this`collateralFees, this`supply, this`pool
      ensures supply == old(supply[p.mia := Get(supply, p.mia) - paid])
      ensures pool == old(Pool(pool.debt - paid, pool.fund - out))
      ensures forall b :: Net(b) == old(Net(b))
      ensures DebtGap() == old(DebtGap())
      ensures Swapped(old(balances), balances, x, p.mia, paid, p.backing, SettleProceeds(out - fee, false, false))
    {
      hide Net, CoreGap, Swapped;
      TakeFromPool(paid, out);
      RetireDebt(x, paid, out, fee);
    }

    /** Takes from the individual settlement pool. */
    method TakeFromPool(debt: nat, out: nat)
      requires debt <= pool.debt && out <= pool.fund
      modifies this`pool
      ensures pool == old(Pool(pool.debt - debt, pool.fund - out))
      ensures forall b :: Net(b) == old(Net(b)) - if b == p.backing then out else 0
      ensures DebtGap() == old(DebtGap()) + debt
    {
      pool := Pool(pool.debt - debt, pool.fund - out);
    }

    /** Takes from the global settlement fund. */
    method TakeFromSwanFund(out: nat)
      requires out <= swanFund
      modifies this`swanFund
      ensures swanFund == old(swanFund) - out
      ensures forall b :: Net(b) == old(Net(b)) - if b == p.backing then out else 0
    {
      swanFund := swanFund - out;
    }

    /** Records a global settlement: the fund is what was gathered plus what the individual pool held. */
    method EnterSwan(gathered: nat)
      requires swan.None? && swanFund == 0 && Get(supply, p.mia) > 0 && gathered + pool.fund > 0
      modifies this`swan, this`swanFund, this`pool, this`debtOrder, this`response, this`feed
      ensures swanFund == old(gathered + pool.fund) && swan == Some(Pair(Get(supply, p.mia), swanFund))
      ensures pool == Pool(0, 0) && debtOrder == None && response == GlobalSettlement
      ensures feed == if old(feed.Some?) then Some(old(feed.value.(current := feed.value.median))) else None
      ensures forall b :: Net(b) == old(Net(b)) + if b == p.backing then gathered else 0
    {
      hide Net, CoreGap;
      FillSwanFund(gathered);
      MarkSettled(Pair(Get(supply, p.mia), swanFund));
    }

    /** Sets the settlement price, drops the debt order, and resets the response and a capped feed. */
    method MarkSettled(price: Price)
      modifies this`swan, this`debtOrder, this`response, this`feed
      ensures swan == Some(price) && debtOrder == None && response == GlobalSettlement
      ensures feed == if old(feed.Some?) then Some(old(feed.value.(current := feed.value.median))) else None
    {
      swan, debtOrder, response := Some(price), None, GlobalSettlement;
      feed := if feed.Some? then Some(feed.value.(current := feed.value.median)) else None;
    }

    method FillSwanFund(gathered: nat)
      requires swanFund == 0
      modifies this`swanFund, this`pool
      ensures swanFund == old(gathered + pool.fund) && pool == Pool(0, 0)
      ensures forall b :: Net(b) == old(Net(b)) + if b == p.backing then gathered else 0
    {
      swanFund, pool := gathered + pool.fund, Pool(0, 0);
    }

    /** Ends a global settlement whose fund has been handed out. */
    method LeaveSwan(handedOut: nat)
      requires handedOut == swanFund
      modifies this`swan, this`swanFund
      ensures swan == None && swanFund == 0
      ensures forall b :: Net(b) == old(Net(b)) - if b == p.backing then handedOut else 0
    {
      swan, swanFund := None, 0;
    }
  }
}
