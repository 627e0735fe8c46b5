/**
 * Looking up the extreme objects of a market: the least collateralized position, the
 * best order selling the debt asset, the settle order that is due first.
 */
module Finders {
  import opened Prices
  import opened MaxDebt
  import opened Ledger

  /** Position `x` has no more collateral per debt than any other; ties are broken arbitrarily. */
  predicate IsLeast(calls: map<Account, Position>, x: Account)
    requires forall y :: y in calls ==> Open(calls[y])
  {
    x in calls && forall y :: y in calls ==> AtMost(Collateralization(calls[x]), Collateralization(calls[y]))
  }

  lemma LeastAmong(calls: map<Account, Position>, s: set<Account>) returns (x: Account)
    requires forall y :: y in calls ==> Open(calls[y])
    requires s != {} && s <= calls.Keys
    ensures x in s && forall y :: y in s ==> AtMost(Collateralization(calls[x]), Collateralization(calls[y]))
    decreases |s|
  {
    var a :| a in s;
    x := a;
    assert forall y :: y in s ==> y == a || y in s - {a};
    if s - {a} != {} {
      var b := LeastAmong(calls, s - {a});
      var pa, pb := Collateralization(calls[a]), Collateralization(calls[b]);
      if AtMost(pa, pb) {
        forall y | y in s ensures AtMost(pa, Collateralization(calls[y])) {
          if y != a { BelowAbove(pa, pb, Collateralization(calls[y])); }
        }
      } else {
        x := b;
      }
    }
  }

  /** A market with positions has a least collateralized one. */
  lemma LeastExists(calls: map<Account, Position>)
    requires calls != map[] && forall y :: y in calls ==> Open(calls[y])
    ensures exists x :: x in calls && IsLeast(calls, x)
  {
    var w := LeastAmong(calls, calls.Keys);
    assert IsLeast(calls, w);
  }

  /** Orders selling asset `sells` for asset `wants`. */
  predicate OnSide(o: LimitOrder, sells: Asset, wants: Asset) {
    o.sells == sells && o.wants == wants
  }

  /** The order is not behind the other one: at least as much sold for as little and, at the same price, older. */
  predicate NotBehind(orders: map<nat, LimitOrder>, id: nat, j: nat)
    requires id in orders && j in orders
  {
    AtMost(orders[j].price, orders[id].price) && (AtMost(orders[id].price, orders[j].price) ==> id <= j)
  }

  /** The first order on a side of a market: most sold for least and, at the same price, the oldest. */
  predicate IsBest(orders: map<nat, LimitOrder>, sells: Asset, wants: Asset, id: nat) {
    && id in orders && OnSide(orders[id], sells, wants)
    && forall j :: j in orders && OnSide(orders[j], sells, wants) ==> NotBehind(orders, id, j)
  }

  lemma NotBehindChain(orders: map<nat, LimitOrder>, a: nat, b: nat, c: nat)
    requires a in orders && b in orders && c in orders && NotBehind(orders, a, b) && NotBehind(orders, b, c)
    ensures NotBehind(orders, a, c)
  {
    hide AtMost;
    var pa, pb, pc := orders[a].price, orders[b].price, orders[c].price;
    BelowAbove(pc, pb, pa);
    if AtMost(pa, pc) {
      BelowAbove(pb, pa, pc);
      BelowAbove(pa, pc, pb);
    }
  }

  lemma BestAmong(orders: map<nat, LimitOrder>, s: set<nat>) returns (x: nat)
    requires s != {} && s <= orders.Keys
    ensures x in s && forall y :: y in s ==> NotBehind(orders, x, y)
    decreases |s|
  {
    hide AtMost;
    var a :| a in s;
    x := a;
    assert forall y :: y in s ==> y == a || y in s - {a};
    EitherIsFirst(orders, a, a);
    if s - {a} != {} {
      var b := BestAmong(orders, s - {a});
      EitherIsFirst(orders, a, b);
      if NotBehind(orders, a, b) {
        forall y | y in s ensures NotBehind(orders, a, y) {
          if y != a { NotBehindChain(orders, a, b, y); }
        }
      } else {
        x := b;
      }
    }
  }

  lemma EitherIsFirst(orders: map<nat, LimitOrder>, a: nat, b: nat)
    requires a in orders && b in orders
    ensures NotBehind(orders, a, b) || NotBehind(orders, b, a)
  {
  }

  predicate HasSide(orders: map<nat, LimitOrder>, sells: Asset, wants: Asset) {
    exists id :: id in orders && OnSide(orders[id], sells, wants)
  }

  /** A side with orders has a best one. */
  lemma BestExists(orders: map<nat, LimitOrder>, sells: Asset, wants: Asset)
    requires HasSide(orders, sells, wants)
    ensures exists id :: id in orders && IsBest(orders, sells, wants, id)
  {
    var ids := set id | id in orders && OnSide(orders[id], sells, wants);
    var id :| id in orders && OnSide(orders[id], sells, wants);
    assert id in ids;
    var w := BestAmong(orders, ids);
    assert IsBest(orders, sells, wants, w);
  }

  /** Due first; among orders due at the same time the oldest. */
  predicate IsFirst(settles: map<nat, SettleOrder>, id: nat) {
    && id in settles
    && forall j :: j in settles ==>
         settles[id].date < settles[j].date || (settles[id].date == settles[j].date && id <= j)
  }

  lemma FirstAmong(settles: map<nat, SettleOrder>, s: set<nat>) returns (x: nat)
    requires s != {} && s <= settles.Keys
    ensures x in s
    ensures forall j :: j in s ==> settles[x].date < settles[j].date || (settles[x].date == settles[j].date && x <= j)
    decreases |s|
  {
    var a :| a in s;
    x := a;
    assert forall y :: y in s ==> y == a || y in s - {a};
    if s - {a} != {} {
      var b := FirstAmong(settles, s - {a});
      if settles[b].date < settles[a].date || (settles[b].date == settles[a].date && b <= a) { x := b; }
    }
  }

  /** Among settle orders one is due first. */
  lemma FirstExists(settles: map<nat, SettleOrder>)
    requires settles != map[]
    ensures exists id :: id in settles && IsFirst(settles, id)
  {
    var w := FirstAmong(settles, settles.Keys);
    assert IsFirst(settles, w);
  }
}
