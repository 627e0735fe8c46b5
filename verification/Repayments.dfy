/** The arithmetic of repaying a loan: fees round up, released collateral rounds down. */
module Repayments {
  import opened Prices

  const FEE_RATE_DENOM: nat := 1_000_000

  datatype Loan = Loan(debt: nat, collateral: nat) {
    predicate Open() {
      debt > 0 && collateral > 0
    }
  }

  /** The least fee accepted for repaying `pay`. */
  function RequiredFee(pay: nat, rate: nat): nat {
    DivUp(pay * rate, FEE_RATE_DENOM)
  }

  /** The collateral released by a partial repayment. */
  function Release(l: Loan, pay: nat): (r: nat)
    requires l.Open() && pay < l.debt
    ensures r < l.collateral
  {
    ReleaseIsPartial(l, pay);
    DivDown(pay * l.collateral, l.debt)
  }

  lemma ReleaseIsPartial(l: Loan, pay: nat)
    requires l.Open() && pay < l.debt
    ensures DivDown(pay * l.collateral, l.debt) < l.collateral
  {
    MulStrict(pay, l.debt, l.collateral);
    MulCancelStrict(DivDown(pay * l.collateral, l.debt), l.collateral, l.debt);
  }

  function Repaid(l: Loan, pay: nat): (r: Loan)
    requires l.Open() && pay < l.debt
    ensures r.Open()
  {
    Loan(l.debt - pay, l.collateral - Release(l, pay))
  }

  /** The collateral per debt of `m` is at least that of `l`. */
  predicate NoWorse(m: Loan, l: Loan) {
    l.collateral * m.debt <= m.collateral * l.debt
  }

  lemma RepaidIsNoWorse(l: Loan, pay: nat)
    requires l.Open() && pay < l.debt
    ensures NoWorse(Repaid(l, pay), l)
  {
    var r := Release(l, pay);
    assert (l.collateral - r) * l.debt == l.collateral * l.debt - r * l.debt;
    assert l.collateral * (l.debt - pay) == l.collateral * l.debt - pay * l.collateral;
  }

  lemma NoWorseTransitive(f: Loan, m: Loan, l: Loan)
    requires m.Open() && NoWorse(f, m) && NoWorse(m, l)
    ensures NoWorse(f, l)
  {
    MulMono(m.collateral * f.debt, f.collateral * m.debt, l.debt);
    MulMono(l.collateral * m.debt, m.collateral * l.debt, f.debt);
    Comm3(m.collateral, f.debt, l.debt);
    Comm3(f.collateral, m.debt, l.debt);
    Comm3(l.collateral, m.debt, f.debt);
    MulCancel(l.collateral * f.debt, f.collateral * l.debt, m.debt);
  }

  function Total(pays: seq<nat>): nat {
    if pays == [] then 0 else pays[0] + Total(pays[1..])
  }

  /** The loan after a series of partial repayments. */
  function AfterAll(l: Loan, pays: seq<nat>): (r: Loan)
    requires l.Open() && Total(pays) < l.debt
    ensures r.Open() && r.debt == l.debt - Total(pays)
    decreases |pays|
  {
    if pays == [] then l else AfterAll(Repaid(l, pays[0]), pays[1..])
  }

  function FeesOf(pays: seq<nat>, rate: nat): nat {
    if pays == [] then 0 else RequiredFee(pays[0], rate) + FeesOf(pays[1..], rate)
  }

  /** No series of repayments lowers the ratio of collateral to debt. */
  lemma {:induction false} AfterAllIsNoWorse(l: Loan, pays: seq<nat>)
    requires l.Open() && Total(pays) < l.debt
    ensures NoWorse(AfterAll(l, pays), l)
    decreases |pays|
  {
    if pays != [] {
      var m := Repaid(l, pays[0]);
      RepaidIsNoWorse(l, pays[0]);
      AfterAllIsNoWorse(m, pays[1..]);
      NoWorseTransitive(AfterAll(l, pays), m, l);
    }
  }

  lemma FeeIsSubadditive(x: nat, y: nat, rate: nat)
    ensures RequiredFee(x + y, rate) <= RequiredFee(x, rate) + RequiredFee(y, rate)
  {
    var fx, fy := RequiredFee(x, rate), RequiredFee(y, rate);
    assert (x + y) * rate == x * rate + y * rate;
    assert (fx + fy) * FEE_RATE_DENOM == fx * FEE_RATE_DENOM + fy * FEE_RATE_DENOM;
    DivUpAtMost((x + y) * rate, FEE_RATE_DENOM, fx + fy);
  }

  /**
   * Splitting a repayment never pays: it releases no more collateral than paying the
   * same sum at once, for no smaller total fee.
   */
  lemma {:induction false} SplittingNeverPays(l: Loan, pays: seq<nat>, rate: nat)
    requires l.Open() && Total(pays) < l.debt
    ensures l.collateral - AfterAll(l, pays).collateral <= Release(l, Total(pays))
    ensures FeesOf(pays, rate) >= RequiredFee(Total(pays), rate)
  {
    AfterAllIsNoWorse(l, pays);
    var f, t := AfterAll(l, pays), Total(pays);
    if f.collateral < l.collateral {
      var released: nat := l.collateral - f.collateral;
      assert l.collateral * (l.debt - t) == l.collateral * l.debt - t * l.collateral;
      assert released * l.debt == l.collateral * l.debt - f.collateral * l.debt;
      DivDownAtLeast(t * l.collateral, l.debt, released);
    }
    SplitFees(pays, rate);
  }

  lemma {:induction false} SplitFees(pays: seq<nat>, rate: nat)
    ensures FeesOf(pays, rate) >= RequiredFee(Total(pays), rate)
    decreases |pays|
  {
    if pays != [] {
      SplitFees(pays[1..], rate);
      FeeIsSubadditive(pays[0], Total(pays[1..]), rate);
    } else {
      DivUpAtMost(0, FEE_RATE_DENOM, 0);
    }
  }

  // Automatic repayment out of an account balance that cannot cover the whole loan

  /** The largest debt the balance can repay together with its fee. */
  function Affordable(balance: nat, rate: nat): nat {
    DivDown(balance * FEE_RATE_DENOM, FEE_RATE_DENOM + rate)
  }

  /** The repayment that an automatic partial repayment makes. */
  function AutoAmount(l: Loan, balance: nat, rate: nat): nat
    requires l.Open()
  {
    DivUp(DivDown(Affordable(balance, rate) * l.collateral, l.debt) * l.debt, l.collateral)
  }

  lemma AffordableIsLargest(balance: nat, rate: nat, y: nat)
    ensures y + RequiredFee(y, rate) <= balance <==> y <= Affordable(balance, rate)
  {
    DivDownAtLeast(balance * FEE_RATE_DENOM, FEE_RATE_DENOM + rate, y);
    assert y * (FEE_RATE_DENOM + rate) == y * FEE_RATE_DENOM + y * rate;
    if y <= balance {
      DivUpAtMost(y * rate, FEE_RATE_DENOM, balance - y);
      assert (balance - y) * FEE_RATE_DENOM == balance * FEE_RATE_DENOM - y * FEE_RATE_DENOM;
    } else {
      MulStrict(balance, y, FEE_RATE_DENOM);
    }
  }

  lemma ReleaseMono(l: Loan, x: nat, y: nat)
    requires l.Open() && x <= y < l.debt
    ensures Release(l, x) <= Release(l, y)
  {
    MulMono(x, y, l.collateral);
    DivDownAtLeast(y * l.collateral, l.debt, Release(l, x));
  }

  /**
   * An automatic partial repayment can be paid with its fee, leaves some debt, and is the
   * cheapest that releases as much collateral as the balance can free at all.
   */
  lemma AutoAmountIsBest(l: Loan, balance: nat, rate: nat)
    requires l.Open() && balance < l.debt + RequiredFee(l.debt, rate)
    ensures var pay := AutoAmount(l, balance, rate);
            && pay < l.debt && pay + RequiredFee(pay, rate) <= balance
            && (forall y: nat | y < l.debt && y + RequiredFee(y, rate) <= balance :: Release(l, y) <= Release(l, pay))
            && (forall y: nat | y < pay :: Release(l, y) < Release(l, pay))
  {
    var most := Affordable(balance, rate);
    AffordableIsLargest(balance, rate, l.debt);
    assert most < l.debt;
    var release := Release(l, most);
    var pay := AutoAmount(l, balance, rate);
    DivUpAtMost(release * l.debt, l.collateral, most);
    assert pay <= most;
    AffordableIsLargest(balance, rate, pay);
    ReleaseMono(l, pay, most);
    DivDownAtLeast(pay * l.collateral, l.debt, release);
    forall y: nat | y < l.debt && y + RequiredFee(y, rate) <= balance ensures Release(l, y) <= Release(l, pay) {
      AffordableIsLargest(balance, rate, y);
      ReleaseMono(l, y, most);
    }
    forall y: nat | y < pay ensures Release(l, y) < Release(l, pay) {
      DivUpAtMost(release * l.debt, l.collateral, y);
      DivDownAtLeast(y * l.collateral, l.debt, release);
    }
  }
}
