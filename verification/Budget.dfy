/**
 * The budget that is drawn from the reserve of the core asset at each maintenance: pay
 * for block producers, pay for workers in the order of their votes, and the supply.
 */
module Budget {
  import opened Prices
  import opened Sums

  const CYCLE_RATE: nat := 17
  const CYCLE_SCALE: nat := 0x1_0000_0000
  const SECONDS_PER_DAY: nat := 86400
  const MICROSECONDS: nat := 1_000_000

  /** A refund worker takes its pay out of the supply, a burn worker gives it to nobody. */
  datatype WorkerKind = Refund | Vesting(balance: nat) | Burn

  datatype Worker = Worker(dailyPay: nat, votes: nat, begins: nat, ends: nat, kind: WorkerKind) {
    predicate Active(now: nat) {
      begins <= now <= ends && votes > 0
    }
  }

  function Min(x: nat, y: nat): nat {
    if x <= y then x else y
  }

  /** More votes go first, then the older worker. */
  predicate Before(workers: map<nat, Worker>, i: nat, j: nat)
    requires i in workers && j in workers
  {
    workers[i].votes > workers[j].votes || (workers[i].votes == workers[j].votes && i < j)
  }

  /** The active workers, each once, in the order in which they are paid. */
  ghost predicate IsRanking(workers: map<nat, Worker>, now: nat, order: seq<nat>) {
    && (forall i :: i in order <==> i in workers && workers[i].Active(now))
    && (forall a, b :: 0 <= a < b < |order| ==> Before(workers, order[a], order[b]))
  }

  predicate IsBest(workers: map<nat, Worker>, among: set<nat>, i: nat)
    requires among <= workers.Keys
  {
    i in among && forall j :: j in among && j != i ==> Before(workers, i, j)
  }

  lemma {:induction false} SomeIsBest(workers: map<nat, Worker>, among: set<nat>)
    requires among != {} && among <= workers.Keys
    ensures exists i :: IsBest(workers, among, i)
    decreases |among|
  {
    var i :| i in among;
    var rest := among - {i};
    if rest == {} {
      assert among == {i};
      assert IsBest(workers, among, i);
    } else {
      SomeIsBest(workers, rest);
      var b :| IsBest(workers, rest, b);
      var best := if Before(workers, i, b) then i else b;
      forall j | j in among && j != best ensures Before(workers, best, j) {
        assert j == i || j in rest;
      }
      assert IsBest(workers, among, best);
    }
  }

  method Rank(workers: map<nat, Worker>, now: nat) returns (order: seq<nat>)
    ensures IsRanking(workers, now, order)
  {
    var rest := set i | i in workers && workers[i].Active(now);
    order := [];
    while rest != {}
      invariant forall i :: i in order || i in rest <==> i in workers && workers[i].Active(now)
      invariant forall a, b :: 0 <= a < b < |order| ==> Before(workers, order[a], order[b])
      invariant forall i, j :: i in order && j in rest ==> Before(workers, i, j)
      decreases |rest|
    {
      SomeIsBest(workers, rest);
      var best :| IsBest(workers, rest, best);
      order := order + [best];
      rest := rest - {best};
    }
  }

  /** The share of the daily pay for the time since the last budget. */
  function Requested(w: Worker, elapsed: nat): nat {
    DivDown(w.dailyPay * (elapsed * MICROSECONDS), SECONDS_PER_DAY * MICROSECONDS)
  }

  ghost function AllRequested(workers: map<nat, Worker>, order: seq<nat>, elapsed: nat): seq<nat>
    requires forall i :: i in order ==> i in workers
  {
    seq(|order|, i requires 0 <= i < |order| => Requested(workers[order[i]], elapsed))
  }

  /** How much of the pay goes to workers of one kind. */
  ghost function PaidTo(workers: map<nat, Worker>, order: seq<nat>, pays: seq<nat>, kind: WorkerKind): nat
    requires |pays| <= |order| && forall i :: i in order ==> i in workers
    decreases |pays|
  {
    if pays == [] then 0
    else
      var n := |pays| - 1;
      PaidTo(workers, order, pays[..n], kind) + if workers[order[n]].kind == kind then pays[n] else 0
  }

  function SumOf(s: seq<nat>): nat {
    if s == [] then 0 else SumOf(s[..|s| - 1]) + s[|s| - 1]
  }

  lemma SumOfNext(s: seq<nat>, x: nat)
    ensures SumOf(s + [x]) == SumOf(s) + x
  {
    assert (s + [x])[..|s|] == s;
  }

  lemma {:induction false} PaidToNext(workers: map<nat, Worker>, order: seq<nat>, pays: seq<nat>, pay: nat, kind: WorkerKind)
    requires |pays| < |order| && forall i :: i in order ==> i in workers
    ensures PaidTo(workers, order, pays + [pay], kind)
            == PaidTo(workers, order, pays, kind) + if workers[order[|pays|]].kind == kind then pay else 0
  {
    assert (pays + [pay])[..|pays|] == pays;
  }

  /**
   * Pay goes out by rank: whoever gets less than they asked for takes the last of the
   * money, after everyone before them was paid in full and before anyone after them.
   */
  ghost predicate PaidByRank(requested: seq<nat>, pays: seq<nat>, budget: nat, left: nat) {
    && |pays| == |requested|
    && SumOf(pays) + left == budget
    && (forall i :: 0 <= i < |pays| ==> pays[i] <= requested[i])
    && (forall i :: 0 <= i < |pays| && pays[i] < requested[i] ==> left == 0)
    && (forall i, j :: 0 <= i < j < |pays| && pays[i] < requested[i] ==> pays[j] == 0)
  }

  lemma PayNobody(budget: nat)
    ensures PaidByRank([], [], budget, budget)
  {
  }

  lemma PayNext(requested: seq<nat>, pays: seq<nat>, budget: nat, left: nat, next: nat)
    requires PaidByRank(requested, pays, budget, left)
    ensures var pay := Min(left, next); PaidByRank(requested + [next], pays + [pay], budget, left - pay)
  {
    assert (pays + [Min(left, next)])[..|pays|] == pays;
  }

  lemma {:induction false} SumOfFirst(s: seq<nat>)
    requires s != []
    ensures SumOf(s) == s[0] + SumOf(s[1..])
  {
    if |s| > 1 {
      SumOfFirst(s[..|s| - 1]);
      assert s[1..][..|s| - 2] == s[..|s| - 1][1..];
    }
  }

  lemma PaidAddsUp(requested: seq<nat>, pays: seq<nat>, budget: nat, left: nat)
    requires PaidByRank(requested, pays, budget, left)
    ensures SumOf(pays) + left == budget
  {
  }

  /** Rank determines every payment. */
  lemma {:induction false} PaidByRankIsUnique(requested: seq<nat>, p: seq<nat>, q: seq<nat>, budget: nat, l: nat, m: nat)
    requires PaidByRank(requested, p, budget, l) && PaidByRank(requested, q, budget, m)
    ensures p == q && l == m
    decreases |requested|
  {
    if requested != [] {
      FirstIsServed(requested, p, budget, l);
      FirstIsServed(requested, q, budget, m);
      PaidByRankIsUnique(requested[1..], p[1..], q[1..], budget - p[0], l, m);
      assert p == [p[0]] + p[1..] && q == [q[0]] + q[1..];
    }
  }

  lemma FirstIsServed(requested: seq<nat>, p: seq<nat>, budget: nat, l: nat)
    requires requested != [] && PaidByRank(requested, p, budget, l)
    ensures p[0] == Min(budget, requested[0]) && PaidByRank(requested[1..], p[1..], budget - p[0], l)
  {
    SumOfFirst(p);
    if p[0] < requested[0] { SumOfZeros(p[1..]); }
  }

  lemma {:induction false} SumOfZeros(s: seq<nat>)
    requires forall i :: 0 <= i < |s| ==> s[i] == 0
    ensures SumOf(s) == 0
  {
    if s != [] { SumOfZeros(s[..|s| - 1]); }
  }

  /** Rounding up leaves no part of the reserve untouchable; capping never spends more than there is. */
  function TotalBudget(reserve: nat, elapsed: nat): (r: nat)
    ensures r <= reserve
    ensures elapsed > 0 && reserve > 0 ==> r > 0
  {
    Min(DivUp(reserve * elapsed * CYCLE_RATE, CYCLE_SCALE), reserve)
  }

  /** The record kept of each budget. */
  datatype Record = Record(totalBudget: nat, blockPay: nat, workerBudget: nat, leftover: nat, supplyDelta: int, supplyAfter: int)

  datatype Settings = Settings(blockInterval: nat, payPerBlock: nat, workerBudgetPerDay: nat)

  class Treasury {
    const maxSupply: nat
    var supply: int
    var fees: nat
    var witnessBudget: nat
    var lastBudget: nat
    /** Pay that vests to workers, and pay sent to the null account. */
    var vesting: map<nat, nat>
    var burned: nat

    constructor (maxSupply: nat, supply: int, last: nat)
      requires 0 <= supply <= maxSupply
      ensures Valid() && this.maxSupply == maxSupply && this.supply == supply && lastBudget == last && fees == witnessBudget == 0
    {
      this.maxSupply, this.supply, fees, witnessBudget, lastBudget, vesting, burned := maxSupply, supply, 0, 0, last, map[], 0;
    }

    /** Core held here minus the core that exists; the rest is held elsewhere. */
    ghost function Net(): int
      reads this`fees, this`witnessBudget, this`vesting, this`burned, this`supply
    {
      fees + witnessBudget + Sum(vesting, Amount()) + burned - supply
    }

    ghost predicate Valid()
      reads this
    {
      supply <= maxSupply && Net() <= 0
    }

    method PayWorker(kind: WorkerKind, pay: nat)
      modifies this`supply, this`vesting, this`burned
      ensures Net() == old(Net()) + pay
      ensures supply == old(supply) - if kind == Refund then pay else 0
      ensures vesting == if kind.Vesting? then old(vesting)[kind.balance := old(Get(vesting, kind.balance)) + pay] else old(vesting)
      ensures burned == old(burned) + if kind == Burn then pay else 0
    {
      match kind
      case Refund => supply := supply - pay;
      case Burn => burned := burned + pay;
      case Vesting(b) =>
        SumUpdate(vesting, b, (Get(vesting, b) + pay) as nat, Amount());
        vesting := vesting[b := Get(vesting, b) + pay];
    }

    /** Pays the workers in the order of their votes while the budget lasts. */
    method PayWorkers(workers: map<nat, Worker>, now: nat, budget: nat)
      returns (left: nat, order: seq<nat>, pays: seq<nat>)
      modifies this`supply, this`vesting, this`burned
      ensures IsRanking(workers, now, order)
      ensures PaidByRank(AllRequested(workers, order, Elapsed(now)), pays, budget, left)
      ensures SumOf(pays) + left == budget && Net() == old(Net()) + SumOf(pays)
      ensures supply == old(supply) - PaidTo(workers, order, pays, Refund)
      ensures burned == old(burned) + PaidTo(workers, order, pays, Burn)
      ensures forall b :: Get(vesting, b) == old(Get(vesting, b)) + PaidTo(workers, order, pays, Vesting(b))
    {
      order := Rank(workers, now);
      left, pays := PayInOrder(workers, order, Elapsed(now), budget);
    }

    method PayInOrder(workers: map<nat, Worker>, order: seq<nat>, elapsed: nat, budget: nat) returns (left: nat, pays: seq<nat>)
      requires forall i :: i in order ==> i in workers
      modifies this`supply, this`vesting, this`burned
      ensures PaidByRank(AllRequested(workers, order, elapsed), pays, budget, left)
      ensures SumOf(pays) + left == budget && Net() == old(Net()) + SumOf(pays)
      ensures supply == old(supply) - PaidTo(workers, order, pays, Refund)
      ensures burned == old(burned) + PaidTo(workers, order, pays, Burn)
      ensures forall b :: Get(vesting, b) == old(Get(vesting, b)) + PaidTo(workers, order, pays, Vesting(b))
    {
      hide Net, PaidByRank, Requested, PaidOut;
      ghost var asked, supplyBefore, burnedBefore, vestingBefore, net := AllRequested(workers, order, elapsed), supply, burned, vesting, Net();
      pays, left := [], budget;
      PayNobody(budget);
      NothingPaidOut(workers, order);
      for i := 0 to |order|
        invariant |pays| == i && PaidByRank(asked[..i], pays, budget, left)
        invariant PaidOut(workers, order, pays, supplyBefore, burnedBefore, vestingBefore, net)
      {
        var requested := Requested(workers[order[i]], elapsed);
        var pay := Min(left, requested);
        PayNext(asked[..i], pays, budget, left, requested);
        PayOne(workers, order, pays, pay, left > 0, supplyBefore, burnedBefore, vestingBefore, net);
        pays, left := pays + [pay], left - pay;
        assert asked[..i + 1] == asked[..i] + [requested];
      }
      assert asked[..|order|] == asked;
      PaidAddsUp(asked, pays, budget, left);
      AllPaidOut(workers, order, pays, supplyBefore, burnedBefore, vestingBefore, net);
    }

    /** What has been paid so far went where the workers' kinds say. */
    ghost predicate PaidOut(workers: map<nat, Worker>, order: seq<nat>, pays: seq<nat>, supplyBefore: int, burnedBefore: int,
                            vestingBefore: map<nat, nat>, net: int)
      requires |pays| <= |order| && forall i :: i in order ==> i in workers
      reads this
    {
      && Net() == net + SumOf(pays)
      && supply == supplyBefore - PaidTo(workers, order, pays, Refund)
      && burned == burnedBefore + PaidTo(workers, order, pays, Burn)
      && forall b :: Get(vesting, b) == Get(vestingBefore, b) + PaidTo(workers, order, pays, Vesting(b))
    }

    lemma NothingPaidOut(workers: map<nat, Worker>, order: seq<nat>)
      requires forall i :: i in order ==> i in workers
      ensures PaidOut(workers, order, [], supply, burned, vesting, Net())
    {
    }

    lemma AllPaidOut(workers: map<nat, Worker>, order: seq<nat>, pays: seq<nat>, supplyBefore: int, burnedBefore: int,
                     vestingBefore: map<nat, nat>, net: int)
      requires |pays| <= |order| && (forall i :: i in order ==> i in workers)
      requires PaidOut(workers, order, pays, supplyBefore, burnedBefore, vestingBefore, net)
      ensures Net() == net + SumOf(pays)
      ensures supply == supplyBefore - PaidTo(workers, order, pays, Refund)
      ensures burned == burnedBefore + PaidTo(workers, order, pays, Burn)
      ensures forall b :: Get(vesting, b) == Get(vestingBefore, b) + PaidTo(workers, order, pays, Vesting(b))
    {
    }

    /** Pays the next worker, if there is money left. */
    method PayOne(workers: map<nat, Worker>, order: seq<nat>, pays: seq<nat>, pay: nat, any: bool, ghost supplyBefore: int,
                  ghost burnedBefore: int, ghost vestingBefore: map<nat, nat>, ghost net: int)
      requires |pays| < |order| && (forall i :: i in order ==> i in workers) && (!any ==> pay == 0)
      requires PaidOut(workers, order, pays, supplyBefore, burnedBefore, vestingBefore, net)
      modifies this`supply, this`vesting, this`burned
      ensures PaidOut(workers, order, pays + [pay], supplyBefore, burnedBefore, vestingBefore, net)
    {
      hide Net, PaidTo, SumOf;
      var kind := workers[order[|pays|]].kind;
      if any {
        PayWorker(kind, pay);
      }
      SumOfNext(pays, pay);
      PaidToNext(workers, order, pays, pay, Refund);
      PaidToNext(workers, order, pays, pay, Burn);
      forall b ensures PaidTo(workers, order, pays + [pay], Vesting(b)) == PaidTo(workers, order, pays, Vesting(b)) + if kind == Vesting(b) then pay else 0 {
        PaidToNext(workers, order, pays, pay, Vesting(b));
      }
    }

    /** Puts the new pay in place of the fees and the unused pay. */
    method Close(delta: int, blockPay: nat, now: nat)
      modifies this`supply, this`fees, this`witnessBudget, this`lastBudget
      ensures supply == old(supply) + delta && fees == 0 && witnessBudget == blockPay && lastBudget == now
      ensures Net() == old(Net()) + blockPay - old(fees) - old(witnessBudget) - delta
    {
      supply := supply + delta;
      fees, witnessBudget, lastBudget := 0, blockPay, now;
    }

    function Elapsed(now: nat): nat
      reads this`lastBudget
    {
      if now > lastBudget then now - lastBudget else 0
    }

    /** What this maintenance may spend, counting fees and unused pay as part of the reserve. */
    function Available(now: nat): (r: nat)
      requires supply <= maxSupply
      reads this`lastBudget, this`supply, this`fees, this`witnessBudget
      ensures r <= maxSupply - supply + fees + witnessBudget
    {
      if lastBudget == 0 || now <= lastBudget then 0
      else TotalBudget(maxSupply - supply + fees + witnessBudget, now - lastBudget)
    }

    /**
     * Sets the budget up to the next maintenance.  The supply never exceeds its maximum and
     * no core appears or is lost; the supply changes by the new pay less the fees and
     * unused pay it replaces, and less what went to refund workers.
     */
    method ProcessBudget(now: nat, next: nat, g: Settings, workers: map<nat, Worker>)
      returns (r: Record, order: seq<nat>, pays: seq<nat>)
      requires Valid() && now < next && g.blockInterval > 0
      modifies this
      ensures Valid() && Net() == old(Net())
      ensures IsRanking(workers, now, order)
      ensures PaidByRank(old(AllRequested(workers, order, Elapsed(now))), pays, r.workerBudget, r.leftover)
      ensures r.totalBudget == old(Available(now)) && r.blockPay + r.workerBudget <= r.totalBudget
      ensures r.blockPay == Min(g.payPerBlock * DivUp(next - now, g.blockInterval), r.totalBudget)
      ensures r.workerBudget == Min(DivDown(g.workerBudgetPerDay * (next - now), SECONDS_PER_DAY), r.totalBudget - r.blockPay)
      ensures fees == 0 && witnessBudget == r.blockPay && lastBudget == now
      ensures supply == old(supply) + (witnessBudget - old(witnessBudget)) + SumOf(pays) - old(fees) - PaidTo(workers, order, pays, Refund)
      ensures r.supplyAfter == supply
      ensures r.supplyDelta == supply - old(supply) + PaidTo(workers, order, pays, Refund)
    {
      hide Net, PaidByRank, IsRanking, DivUp, DivDown, TotalBudget, AllRequested;
      var available := Available(now);
      var blockPay := Min(g.payPerBlock * DivUp(next - now, g.blockInterval), available);
      var workerBudget := Min(DivDown(g.workerBudgetPerDay * (next - now), SECONDS_PER_DAY), available - blockPay);
      var left;
      left, order, pays := PayWorkers(workers, now, workerBudget);
      var delta := blockPay + workerBudget - left - fees - witnessBudget;
      Close(delta, blockPay, now);
      r := Record(available, blockPay, workerBudget, left, delta, supply);
    }
  }

  /** A day of pay to one refund worker: the record says the supply grew by it, yet it did not. */
  method RefundExample() returns (t: Treasury, before: int, r: Record)
    ensures r.supplyDelta == 10 && t.supply == before
  {
    hide PaidByRank, DivDown, DivUp, TotalBudget, Requested;
    var workers := map[0 := Worker(10, 1, 0, 200_000, Refund)];
    t := new Treasury(1_000_000, 0, 86400);
    before := t.supply;
    var order, pays;
    r, order, pays := t.ProcessBudget(172800, 259200, Settings(5, 0, 100), workers);
    OneRanked(workers, 172800, order);
    BudgetOfExample();
    assert AllRequested(workers, order, 86400) == [10];
    OnePaid(pays, r.leftover);
  }

  lemma BudgetOfExample()
    ensures TotalBudget(1_000_000, 86400) == 342 && DivDown(100 * 86400, SECONDS_PER_DAY) == 100
    ensures forall kind :: Requested(Worker(10, 1, 0, 200_000, kind), 86400) == 10
  {
  }

  lemma OnePaid(pays: seq<nat>, left: nat)
    requires PaidByRank([10], pays, 100, left)
    ensures pays == [10]
  {
    PaidByRankIsUnique([10], pays, [10], 100, left, 90);
  }

  lemma OneRanked(workers: map<nat, Worker>, now: nat, order: seq<nat>)
    requires workers.Keys == {0} && workers[0].Active(now) && IsRanking(workers, now, order)
    ensures order == [0]
  {
    assert 0 in order;
    var n := |order| - 1;
    assert order[0] in order && order[n] in order;
  }
}
