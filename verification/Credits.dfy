/**
 * Credit offers: funds that accounts lend out against collateral, the deals made from
 * them, and the table of what each borrower owes to each offer.
 */
module Credits {
  import opened Wrappers
  import opened Prices
  import opened Sums
  import opened Repayments

  type Account = nat
  type Asset = nat

  /** Times are 32-bit counts of seconds. */
  const MAX_TIME: nat := 0xFFFF_FFFF
  const MAX_OFFER_SECONDS: nat := 380 * 86400
  const MAX_DEAL_SECONDS: nat := 380 * 86400

  /** What an offer asks for; `borrowers` limits who may borrow how much, unless it is empty. */
  datatype Terms = Terms(feeRate: nat, maxDuration: nat, minDeal: nat, enabled: bool, autoDisable: nat,
                         collateral: map<Asset, Price>, borrowers: map<Account, nat>) {
    /** The checks made on terms given by an owner. */
    predicate Acceptable(now: nat) {
      && maxDuration <= MAX_DEAL_SECONDS
      && (enabled ==> now < autoDisable <= now + MAX_OFFER_SECONDS)
    }
  }

  datatype Offer = Offer(owner: Account, asset: Asset, total: nat, current: nat, terms: Terms)

  datatype AutoRepay = NoAutoRepay | OnlyFull | AllowPartial

  datatype Deal = Deal(borrower: Account, offer: nat, owner: Account, debtAsset: Asset, collateralAsset: Asset,
                       loan: Loan, feeRate: nat, latestRepay: nat, auto: AutoRepay)

  // What to add up over the entries of a map

  ghost function Lendable(a: Asset): (nat, Offer) -> int {
    (k: nat, o: Offer) => if o.asset == a then o.current else 0
  }

  ghost function Pledged(a: Asset): (nat, Deal) -> int {
    (k: nat, d: Deal) => if d.collateralAsset == a then d.loan.collateral else 0
  }

  ghost function OwedTo(o: nat): (nat, Deal) -> int {
    (k: nat, d: Deal) => if d.offer == o then d.loan.debt else 0
  }

  ghost function OwedBy(k: (nat, Account)): (nat, Deal) -> int {
    (i: nat, d: Deal) => if (d.offer, d.borrower) == k then d.loan.debt else 0
  }

  /** The full repayment of a deal with its fee. */
  function FullCost(d: Deal): nat {
    d.loan.debt + RequiredFee(d.loan.debt, d.feeRate)
  }

  /** What an automatic repayment pays out of `balance`. */
  function AutoPay(d: Deal, balance: nat): (pay: nat)
    requires d.loan.Open()
    ensures pay <= d.loan.debt
    ensures d.auto != OnlyFull ==> pay + RequiredFee(pay, d.feeRate) <= balance
  {
    if d.auto == OnlyFull || FullCost(d) <= balance then d.loan.debt
    else
      AutoAmountIsBest(d.loan, balance, d.feeRate);
      AutoAmount(d.loan, balance, d.feeRate)
  }

  predicate Earlier(deals: map<nat, Deal>, i: nat, j: nat)
    requires i in deals && j in deals
  {
    deals[i].latestRepay < deals[j].latestRepay || (deals[i].latestRepay == deals[j].latestRepay && i <= j)
  }

  /** The deal that falls due first, the older one of two that fall due together. */
  predicate DueFirst(deals: map<nat, Deal>, i: nat) {
    i in deals && forall j :: j in deals ==> Earlier(deals, i, j)
  }

  lemma {:induction false} SomeIsDueFirst(deals: map<nat, Deal>)
    requires deals != map[]
    ensures exists i :: DueFirst(deals, i)
    decreases |deals|
  {
    var i :| i in deals;
    var rest := deals - {i};
    if rest == map[] {
      assert deals.Keys == rest.Keys + {i};
      assert DueFirst(deals, i);
    } else {
      SomeIsDueFirst(rest);
      var f :| DueFirst(rest, f);
      var first := if Earlier(deals, i, f) then i else f;
      forall j | j in deals ensures Earlier(deals, first, j) {
        if j != i { assert Earlier(rest, f, j); }
      }
      assert DueFirst(deals, first);
    }
  }

  class CreditLedger {
    var balances: map<(Account, Asset), nat>
    var offers: map<nat, Offer>
    var deals: map<nat, Deal>
    /** What each borrower owes to each offer. */
    var summaries: map<(nat, Account), nat>

    constructor (balances: map<(Account, Asset), nat>)
      ensures Valid() && this.balances == balances && offers == map[] && deals == map[] && summaries == map[]
    {
      this.balances, offers, deals, summaries := balances, map[], map[], map[];
    }

    /** All of an asset that is in balances, lendable or pledged. */
    ghost function Holdings(a: Asset): int
      reads this`balances, this`offers, this`deals
    {
      Sum(balances, InAsset(a)) + Sum(offers, Lendable(a)) + Sum(deals, Pledged(a))
    }

    ghost function Lent(o: nat): int
      reads this`deals
    {
      Sum(deals, OwedTo(o))
    }

    ghost function Owed(k: (nat, Account)): int
      reads this`deals
    {
      Sum(deals, OwedBy(k))
    }

    /** Every deal is open, and its offer exists and agrees with it. */
    ghost predicate DealsValid()
      reads this`deals, this`offers
    {
      forall i :: i in deals ==>
                    && deals[i].loan.Open()
                    && deals[i].offer in offers
                    && offers[deals[i].offer].owner == deals[i].owner
                    && offers[deals[i].offer].asset == deals[i].debtAsset
    }

    /** What is missing from an offer is what is owed to it. */
    ghost predicate OffersBalance()
      reads this`deals, this`offers
    {
      forall o :: o in offers ==> offers[o].total == offers[o].current + Lent(o)
    }

    ghost predicate SummariesExact()
      reads this`deals, this`summaries
    {
      && (forall k :: k in summaries ==> summaries[k] > 0)
      && (forall k :: Get(summaries, k) == Owed(k))
    }

    ghost predicate TermsValid()
      reads this`offers
    {
      forall o :: o in offers ==> offers[o].terms.maxDuration <= MAX_DEAL_SECONDS
    }

    ghost predicate Valid()
      reads this
    {
      DealsValid() && OffersBalance() && SummariesExact() && TermsValid()
    }

    // Primitive updates

    method AdjustBalance(x: Account, a: Asset, delta: int)
      requires Get(balances, (x, a)) + delta >= 0
      modifies this`balances
      ensures balances == old(if delta == 0 then balances else balances[(x, a) := Get(balances, (x, a)) + delta])
      ensures forall b :: Holdings(b) == old(Holdings(b)) + if b == a then delta else 0
    {
      if delta == 0 { return; }
      var v: nat := Get(balances, (x, a)) + delta;
      forall b ensures Sum(balances[(x, a) := v], InAsset(b)) == Sum(balances, InAsset(b)) + if b == a then delta else 0 {
        SumUpdate(balances, (x, a), v, InAsset(b));
      }
      balances := balances[(x, a) := v];
    }

    method SetOffer(id: nat, o: Offer)
      requires id in offers ==> offers[id].asset == o.asset
      modifies this`offers
      ensures offers == old(offers)[id := o]
      ensures forall b :: Holdings(b) == old(Holdings(b))
                                         + if b == o.asset then o.current - old(if id in offers then offers[id].current else 0) else 0
    {
      forall b {
        SumUpdate(offers, id, o, Lendable(b));
      }
      offers := offers[id := o];
    }

    method RemoveOffer(id: nat)
      requires id in offers
      modifies this`offers
      ensures offers == old(offers) - {id}
      ensures forall b :: Holdings(b) == old(Holdings(b) - if b == offers[id].asset then offers[id].current else 0)
    {
      forall b {
        SumRemove(offers, id, Lendable(b));
      }
      offers := offers - {id};
    }

    method SetDeal(id: nat, d: Deal)
      requires id in deals ==> deals[id].offer == d.offer && deals[id].borrower == d.borrower
                               && deals[id].collateralAsset == d.collateralAsset
      modifies this`deals
      ensures deals == old(deals)[id := d]
      ensures forall b :: Holdings(b) == old(Holdings(b)) + if b == d.collateralAsset
                                                            then d.loan.collateral - old(LoanOf(id)).collateral else 0
      ensures forall o :: Lent(o) == old(Lent(o)) + if o == d.offer then d.loan.debt - old(LoanOf(id)).debt else 0
      ensures forall k :: Owed(k) == old(Owed(k)) + if k == (d.offer, d.borrower) then d.loan.debt - old(LoanOf(id)).debt else 0
    {
      forall b { SumUpdate(deals, id, d, Pledged(b)); }
      forall o { SumUpdate(deals, id, d, OwedTo(o)); }
      forall k { SumUpdate(deals, id, d, OwedBy(k)); }
      deals := deals[id := d];
    }

    ghost function LoanOf(id: nat): Loan
      reads this`deals
    {
      if id in deals then deals[id].loan else Loan(0, 0)
    }

    method RemoveDeal(id: nat)
      requires id in deals
      modifies this`deals
      ensures deals == old(deals) - {id}
      ensures forall b :: Holdings(b) == old(Holdings(b) - if b == deals[id].collateralAsset then deals[id].loan.collateral else 0)
      ensures forall o :: Lent(o) == old(Lent(o) - if o == deals[id].offer then deals[id].loan.debt else 0)
      ensures forall k :: Owed(k) == old(Owed(k) - if k == (deals[id].offer, deals[id].borrower) then deals[id].loan.debt else 0)
    {
      forall b { SumRemove(deals, id, Pledged(b)); }
      forall o { SumRemove(deals, id, OwedTo(o)); }
      forall k { SumRemove(deals, id, OwedBy(k)); }
      deals := deals - {id};
    }

    method Owe(k: (nat, Account), amount: nat)
      requires amount > 0 && Get(summaries, k) >= 0
      modifies this`summaries
      ensures summaries == old(summaries)[k := old(Get(summaries, k)) + amount]
    {
      summaries := summaries[k := Get(summaries, k) + amount];
    }

    /** Lowers what a borrower owes, dropping the entry when nothing is left. */
    method OweLess(k: (nat, Account), amount: nat)
      requires k in summaries && amount <= summaries[k]
      modifies this`summaries
      ensures summaries == old(if summaries[k] == amount then summaries - {k} else summaries[k := summaries[k] - amount])
    {
      if summaries[k] == amount {
        summaries := summaries - {k};
      } else {
        summaries := summaries[k := summaries[k] - amount];
      }
    }

    /** A borrower has an entry exactly when they have an open deal, and owes at least that deal. */
    lemma SummaryMeansDeals(k: (nat, Account))
      requires DealsValid() && SummariesExact()
      ensures k in summaries <==> exists i :: i in deals && (deals[i].offer, deals[i].borrower) == k
      ensures forall i :: i in deals && (deals[i].offer, deals[i].borrower) == k ==> deals[i].loan.debt <= summaries[k]
    {
      SumBounds(deals, OwedBy(k));
      if forall i :: i in deals ==> (deals[i].offer, deals[i].borrower) != k {
        SumOfNothing(deals, OwedBy(k));
      }
      assert Get(summaries, k) == Owed(k);
      forall i | i in deals && (deals[i].offer, deals[i].borrower) == k
        ensures k in summaries && deals[i].loan.debt <= summaries[k]
      {
        assert 0 < deals[i].loan.debt == OwedBy(k)(i, deals[i]) <= Owed(k);
      }
    }

    lemma DealIsLent(i: nat)
      requires DealsValid() && i in deals
      ensures deals[i].loan.debt <= Lent(deals[i].offer)
    {
      SumBounds(deals, OwedTo(deals[i].offer));
      assert deals[i].loan.debt == OwedTo(deals[i].offer)(i, deals[i]);
    }

    lemma LentMeansDeals(o: nat)
      requires DealsValid()
      ensures Lent(o) == 0 <==> forall i :: i in deals ==> deals[i].offer != o
    {
      if i :| i in deals && deals[i].offer == o {
        DealIsLent(i);
      } else {
        SumOfNothing(deals, OwedTo(o));
      }
    }

    lemma LentIsNat(o: nat)
      ensures Lent(o) >= 0
    {
      SumBounds(deals, OwedTo(o));
    }

    // Operations

    method CreateOffer(id: nat, owner: Account, asset: Asset, balance: nat, terms: Terms, now: nat) returns (ok: bool)
      requires Valid() && id !in offers
      modifies this
      ensures Valid() && forall a :: Holdings(a) == old(Holdings(a))
      ensures ok <==> balance > 0 && terms.Acceptable(now) && balance <= old(Get(balances, (owner, asset)))
      ensures deals == old(deals) && summaries == old(summaries)
      ensures offers == if ok then old(offers)[id := Offer(owner, asset, balance, balance, terms)] else old(offers)
      ensures balances == old(if ok then balances[(owner, asset) := Get(balances, (owner, asset)) - balance] else balances)
    {
      hide Holdings, Lent, Owed;
      if balance == 0 || !terms.Acceptable(now) || Get(balances, (owner, asset)) < balance { return false; }
      AdjustBalance(owner, asset, 0 - balance);
      LentMeansDeals(id);
      SetOffer(id, Offer(owner, asset, balance, balance, terms));
      return true;
    }

    method DeleteOffer(id: nat, account: Account) returns (ok: bool)
      requires Valid() && id in offers
      modifies this
      ensures Valid() && forall a :: Holdings(a) == old(Holdings(a))
      ensures ok <==> old(offers[id].owner == account && forall i :: i in deals ==> deals[i].offer != id)
      ensures deals == old(deals) && summaries == old(summaries)
      ensures offers == if ok then old(offers) - {id} else old(offers)
      ensures forall k :: Get(balances, k) == old(Get(balances, k) + if ok && k == (account, offers[id].asset) then offers[id].current else 0)
    {
      hide Holdings, Lent, Owed;
      var o := offers[id];
      LentMeansDeals(id);
      if o.owner != account || o.total != o.current { return false; }
      AdjustBalance(account, o.asset, o.current);
      RemoveOffer(id);
      return true;
    }

    predicate UpdateAllowed(id: nat, account: Account, delta: Option<int>, terms: Terms, now: nat)
      requires id in offers
      reads this`offers, this`balances
    {
      var o := offers[id];
      && o.owner == account
      && terms.Acceptable(now)
      && (delta.Some? && delta.value > 0 ==> delta.value <= Get(balances, (account, o.asset)))
      && (delta.Some? && delta.value < 0 ==> o.total > -delta.value && o.current >= -delta.value)
    }

    /**
     * Changes the funds or the terms of an offer.  The final check that funds are left in
     * it can only fail when nothing is added to an offer that defaults have emptied.
     */
    method UpdateOffer(id: nat, account: Account, delta: Option<int>, terms: Terms, now: nat) returns (ok: bool)
      requires Valid() && id in offers && delta != Some(0)
      modifies this`offers, this`balances
      ensures Valid() && forall a :: Holdings(a) == old(Holdings(a))
      ensures ok <==> old(UpdateAllowed(id, account, delta, terms, now)) && !(delta.None? && old(offers[id].total) == 0)
      ensures !ok ==> offers == old(offers) && balances == old(balances)
      ensures ok ==> var d := if delta.Some? then delta.value else 0;
                     && id in offers && offers == old(offers)[id := offers[id]]
                     && offers[id] == old(offers[id]).(total := offers[id].total, current := offers[id].current, terms := terms)
                     && offers[id].total == old(offers[id].total) + d && offers[id].current == old(offers[id].current) + d
                     && (forall k :: Get(balances, k) == old(Get(balances, k)) - if k == (account, offers[id].asset) then d else 0)
    {
      hide Holdings, Lent, Owed;
      if !UpdateAllowed(id, account, delta, terms, now) { return false; }
      var d: int := if delta.Some? then delta.value else 0;
      var o := offers[id];
      LentIsNat(id);
      var next := o.(total := o.total + d, current := o.current + d, terms := terms);
      assert next.total >= next.current;
      if next.total == 0 { return false; }
      AdjustBalance(account, o.asset, 0 - d);
      SetOffer(id, next);
      return true;
    }

    predicate AcceptAllowed(o: nat, borrower: Account, borrow: nat, asset: Asset, collateral: nat, maxFeeRate: nat, minDuration: nat)
      requires o in offers
      reads this`offers, this`summaries, this`balances
    {
      var t := offers[o].terms;
      && borrow > 0 && collateral > 0
      && t.enabled && borrow <= offers[o].current && t.minDeal <= borrow
      && t.feeRate <= maxFeeRate && minDuration <= t.maxDuration
      && asset in t.collateral && ToQuoteUp(borrow, t.collateral[asset]) <= collateral
      && (t.borrowers != map[] ==> borrower in t.borrowers && Get(summaries, (o, borrower)) + borrow <= t.borrowers[borrower])
      && collateral <= Get(balances, (borrower, asset))
    }

    /**
     * Borrows from an offer.  Of the final checks only the one for a deadline in the future
     * can fail, for an offer that lends for no time at all or at the end of time.
     */
    method Accept(id: nat, o: nat, borrower: Account, borrow: nat, asset: Asset, collateral: nat, maxFeeRate: nat,
                  minDuration: nat, auto: AutoRepay, now: nat)
      returns (ok: bool)
      requires Valid() && o in offers && id !in deals && now <= MAX_TIME
      modifies this
      ensures Valid() && forall a :: Holdings(a) == old(Holdings(a))
      ensures ok <==> old(AcceptAllowed(o, borrower, borrow, asset, collateral, maxFeeRate, minDuration))
                      && old(offers[o].terms.maxDuration) > 0 && now < MAX_TIME
      ensures !ok ==> unchanged(this)
      ensures ok ==> && id in deals && deals == old(deals)[id := deals[id]]
                     && deals[id].borrower == borrower && deals[id].offer == o
                     && deals[id].loan == Loan(borrow, collateral) && deals[id].collateralAsset == asset
                     && deals[id].feeRate == old(offers[o].terms.feeRate) && deals[id].auto == auto
                     && now < deals[id].latestRepay <= MAX_TIME && deals[id].latestRepay - now <= MAX_DEAL_SECONDS
                     && offers == old(offers)[o := old(offers[o]).(current := old(offers[o].current) - borrow)]
      ensures ok ==> forall k :: Get(balances, k) == old(Get(balances, k)) - (if k == (borrower, asset) then collateral else 0)
                                                     + (if k == (borrower, old(offers[o].asset)) then borrow else 0)
    {
      hide Holdings, Lent, Owed, OffersBalance, SummariesExact, DealsValid, ToQuoteUp;
      if !AcceptAllowed(o, borrower, borrow, asset, collateral, maxFeeRate, minDuration) { return false; }
      var offer := offers[o];
      var deadline := if MAX_TIME - now >= offer.terms.maxDuration then now + offer.terms.maxDuration else MAX_TIME;
      if deadline <= now { return false; }
      AdjustBalance(borrower, asset, 0 - collateral);
      AdjustBalance(borrower, offer.asset, borrow);
      Lend(id, o, Deal(borrower, o, offer.owner, offer.asset, asset, Loan(borrow, collateral), offer.terms.feeRate, deadline, auto));
      return true;
    }

    /** Moves the amount of a new deal out of the offer and onto the borrower's account of debt. */
    method Lend(id: nat, o: nat, d: Deal)
      requires Valid() && o in offers && id !in deals && d.offer == o && d.loan.Open() && d.loan.debt <= offers[o].current
      requires d.owner == offers[o].owner && d.debtAsset == offers[o].asset
      modifies this`offers, this`deals, this`summaries
      ensures Valid()
      ensures deals == old(deals)[id := d]
      ensures offers == old(offers)[o := old(offers[o]).(current := old(offers[o].current) - d.loan.debt)]
      ensures forall a :: Holdings(a) == old(Holdings(a)) + (if a == d.collateralAsset then d.loan.collateral else 0)
                                         - (if a == d.debtAsset then d.loan.debt else 0)
    {
      hide Holdings, Lent, Owed;
      LentIsNat(o);
      SetOffer(o, offers[o].(current := offers[o].current - d.loan.debt));
      SetDeal(id, d);
      assert offers[o].total >= offers[o].current;
      Owe((o, d.borrower), d.loan.debt);
    }

    predicate RepayAllowed(id: nat, account: Account, pay: nat, fee: nat)
      requires id in deals
      reads this`deals, this`balances
    {
      var d := deals[id];
      && pay > 0 && d.borrower == account && pay <= d.loan.debt && RequiredFee(pay, d.feeRate) <= fee
      && pay + fee <= Get(balances, (account, d.debtAsset))
    }

    /** What is left of a deal after a repayment. */
    ghost function DealsAfter(id: nat, pay: nat): map<nat, Deal>
      requires id in deals && deals[id].loan.Open() && pay <= deals[id].loan.debt
      reads this`deals
    {
      if pay == deals[id].loan.debt then deals - {id} else deals[id := deals[id].(loan := Repaid(deals[id].loan, pay))]
    }

    /**
     * Repays a deal in whole or in part.  The offer gets the amount back and keeps the fee;
     * the borrower gets the collateral back, all of it or in proportion.  None of the
     * internal checks can fail.
     */
    method Repay(id: nat, account: Account, pay: nat, fee: nat) returns (ok: bool)
      requires Valid() && id in deals
      modifies this
      ensures Valid() && forall a :: Holdings(a) == old(Holdings(a))
      ensures ok <==> old(RepayAllowed(id, account, pay, fee))
      ensures !ok ==> unchanged(this)
      ensures ok ==> deals == old(DealsAfter(id, pay))
      ensures ok ==> var d := old(deals[id]);
                     var released := if pay == d.loan.debt then d.loan.collateral else Release(d.loan, pay);
                     forall k :: Get(balances, k) == old(Get(balances, k)) - (if k == (account, d.debtAsset) then pay + fee else 0)
                                                     + (if k == (account, d.collateralAsset) then released else 0)
      ensures ok ==> var o := old(deals[id].offer);
                     offers == old(offers)[o := old(offers[o]).(total := old(offers[o].total) + fee,
                                                                current := old(offers[o].current) + pay + fee)]
    {
      hide Holdings, Lent, Owed;
      if !RepayAllowed(id, account, pay, fee) { return false; }
      var d := deals[id];
      AdjustBalance(account, d.debtAsset, 0 - (pay + fee));
      var released := SettleDebt(id, pay, fee);
      AdjustBalance(account, d.collateralAsset, released);
      return true;
    }

    /** Takes a repayment or write-off off a deal and off the borrower's account of debt. */
    method Discharge(id: nat, pay: nat) returns (released: nat)
      requires DealsValid() && SummariesExact() && id in deals && 0 < pay <= deals[id].loan.debt
      modifies this`deals, this`summaries
      ensures SummariesExact() && deals == old(DealsAfter(id, pay))
      ensures var l := old(deals[id].loan); released == if pay == l.debt then l.collateral else Release(l, pay)
      ensures forall o :: Lent(o) == old(Lent(o)) - if o == old(deals[id].offer) then pay else 0
      ensures forall a :: Holdings(a) == old(Holdings(a)) - if a == old(deals[id].collateralAsset) then released else 0
    {
      hide Holdings, Lent, Owed;
      var d := deals[id];
      SummaryMeansDeals((d.offer, d.borrower));
      OweLess((d.offer, d.borrower), pay);
      if pay == d.loan.debt {
        released := d.loan.collateral;
        RemoveDeal(id);
      } else {
        released := Release(d.loan, pay);
        SetDeal(id, d.(loan := Loan(d.loan.debt - pay, d.loan.collateral - released)));
      }
    }

    /** Books a repayment in the offer and the deal. */
    method SettleDebt(id: nat, pay: nat, fee: nat) returns (released: nat)
      requires Valid() && id in deals && 0 < pay <= deals[id].loan.debt
      modifies this`offers, this`deals, this`summaries
      ensures Valid()
      ensures var l := old(deals[id].loan); released == if pay == l.debt then l.collateral else Release(l, pay)
      ensures deals == old(DealsAfter(id, pay))
      ensures var o := old(deals[id].offer);
              offers == old(offers)[o := old(offers[o]).(total := old(offers[o].total) + fee,
                                                         current := old(offers[o].current) + pay + fee)]
      ensures forall a :: Holdings(a) == old(Holdings(a)) - (if a == old(deals[id].collateralAsset) then released else 0)
                                         + (if a == old(deals[id].debtAsset) then pay + fee else 0)
    {
      hide Holdings, Lent, Owed;
      var d := deals[id];
      var offer := offers[d.offer];
      DealIsLent(id);
      SetOffer(d.offer, offer.(total := offer.total + fee, current := offer.current + pay + fee));
      assert offers[d.offer].total >= offers[d.offer].current;
      released := Discharge(id, pay);
    }

    // Deals that fall due

    /**
     * Tries the automatic repayment of a deal, which others may forbid.  If it is allowed it
     * fails only if the balance can not pay the whole deal where that is asked for, or
     * can not free any collateral.
     */
    method TryAutoRepay(id: nat, authorized: bool) returns (repaid: bool)
      requires Valid() && id in deals && deals[id].auto != NoAutoRepay
      modifies this
      ensures Valid() && forall a :: Holdings(a) == old(Holdings(a))
      ensures var d, balance := old(deals[id]), old(Get(balances, (deals[id].borrower, deals[id].debtAsset)));
              && (repaid <==> authorized && (if d.auto == OnlyFull then FullCost(d) <= balance else AutoPay(d, balance) > 0))
              && (repaid ==> deals == old(DealsAfter(id, AutoPay(d, balance))))
              && (!repaid ==> unchanged(this))
    {
      hide Holdings, Lent, Owed, OffersBalance, SummariesExact, TermsValid, RequiredFee, AutoAmount;
      var d := deals[id];
      var balance := Get(balances, (d.borrower, d.debtAsset));
      var pay := AutoPay(d, balance);
      if !authorized { return false; }
      repaid := Repay(id, d.borrower, pay, RequiredFee(pay, d.feeRate));
    }

    /** Writes off a deal: the lender takes the collateral in place of the debt. */
    method Expire(id: nat)
      requires Valid() && id in deals
      modifies this
      ensures Valid() && forall a :: Holdings(a) == old(Holdings(a))
      ensures deals == old(deals) - {id}
      ensures var o := old(deals[id].offer);
              && o in offers && offers == old(offers)[o := old(offers[o]).(total := offers[o].total)]
              && offers[o].total == old(offers[o].total - deals[id].loan.debt)
      ensures var d := old(deals[id]);
              forall k :: Get(balances, k) == old(Get(balances, k)) + if k == (d.owner, d.collateralAsset) then d.loan.collateral else 0
    {
      hide Holdings, Lent, Owed;
      var d := deals[id];
      DealIsLent(id);
      SetOffer(d.offer, offers[d.offer].(total := offers[d.offer].total - d.loan.debt));
      var collateral := Discharge(id, d.loan.debt);
      AdjustBalance(d.owner, d.collateralAsset, collateral);
    }

    /** Settles every deal that is due, the earliest first, and leaves the others alone. */
    method ProcessDeals(now: nat)
      requires Valid()
      modifies this
      ensures Valid() && forall a :: Holdings(a) == old(Holdings(a))
      ensures deals == map i | i in old(deals) && old(deals)[i].latestRepay > now :: old(deals)[i]
    {
      hide Holdings, Lent, Owed, OffersBalance, SummariesExact, TermsValid;
      while deals != map[]
        invariant Valid() && forall a :: Holdings(a) == old(Holdings(a))
        invariant forall i :: i in deals ==> i in old(deals) && deals[i] == old(deals)[i]
        invariant forall i :: i in old(deals) && old(deals)[i].latestRepay > now ==> i in deals
        decreases |deals|
      {
        SomeIsDueFirst(deals);
        var id :| DueFirst(deals, id);
        if deals[id].latestRepay > now { return; }
        ProcessDeal(id);
      }
    }

    method ProcessDeal(id: nat)
      requires Valid() && id in deals
      modifies this
      ensures Valid() && forall a :: Holdings(a) == old(Holdings(a))
      ensures deals == old(deals) - {id}
    {
      hide Holdings, Lent, Owed, OffersBalance, SummariesExact, TermsValid;
      ghost var before := deals;
      if deals[id].auto != NoAutoRepay {
        var authorized: bool := *;
        var repaid := TryAutoRepay(id, authorized);
        if id !in deals { return; }
      }
      Expire(id);
      assert deals == before - {id};
    }
  }

  /** An offer that was lent out completely and defaulted on can no longer be updated without adding funds. */
  method EmptiedOfferExample() returns (c: CreditLedger, before: bool, after: bool)
    ensures before && !after
  {
    var terms := Terms(0, 100, 0, true, 1000, map[1 := Pair(1, 1)], map[]);
    c := new CreditLedger(map[(10, 0) := 5, (20, 1) := 5]);
    var ok := c.CreateOffer(0, 10, 0, 5, terms, 1);
    before := c.UpdateOffer(0, 10, None, terms, 1);
    assert ToQuoteUp(5, Pair(1, 1)) == 5;
    ok := c.Accept(0, 0, 20, 5, 1, 5, 0, 0, NoAutoRepay, 1);
    c.Expire(0);
    after := c.UpdateOffer(0, 10, None, terms, 1);
  }

  /** An offer that lends for no time is accepted as an offer, but nobody can borrow from it. */
  method NoTimeExample() returns (offered: bool, borrowed: bool)
    ensures offered && !borrowed
  {
    var terms := Terms(0, 0, 0, true, 1000, map[1 := Pair(1, 1)], map[]);
    var c := new CreditLedger(map[(10, 0) := 5, (20, 1) := 5]);
    offered := c.CreateOffer(0, 10, 0, 5, terms, 1);
    borrowed := c.Accept(0, 0, 20, 5, 1, 5, 0, 0, NoAutoRepay, 1);
  }
}
