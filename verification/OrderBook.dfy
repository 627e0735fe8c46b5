/**
 * A market of limit orders: two sides, each kept best price first and oldest
 * first among equal prices, and the matching of a new order against the other side.
 */
module OrderBook {
  import opened Prices
  import opened LimitQuotes

  datatype Side = Bid | Ask {
    function Other(): Side {
      if this == Bid then Ask else Bid
    }
  }

  /** Sells `forSale` at `price.base` of what it sells for `price.quote` of what it wants. */
  datatype Order = Order(id: nat, seller: nat, forSale: nat, price: Price) {
    function ToReceive(): nat {
      ToQuote(forSale, price)
    }
  }

  datatype Fill = Fill(order: nat, seller: nat, pays: nat, receives: nat, price: Price, isMaker: bool)

  datatype Refund = Refund(order: nat, seller: nat, amount: nat)

  datatype MatchResult = OnlyMakerFilled | OnlyTakerFilled | BothFilled

  /** The order of the book: better price first, then lower id. */
  predicate Before(a: Order, b: Order) {
    Less(b.price, a.price) || (AtMost(a.price, b.price) && AtMost(b.price, a.price) && a.id < b.id)
  }

  predicate Sorted(s: seq<Order>) {
    forall i, j :: 0 <= i < j < |s| ==> Before(s[i], s[j])
  }

  predicate UniqueIds(s: seq<Order>) {
    forall i, j :: 0 <= i < j < |s| ==> s[i].id != s[j].id
  }

  /** No order on this side is too small to receive anything at its own price. */
  predicate DustFree(s: seq<Order>) {
    forall i :: 0 <= i < |s| ==> s[i].ToReceive() > 0
  }

  /** Two orders on opposite sides that both accept a common price. */
  predicate Crosses(a: Order, b: Order) {
    AtMost(Inverse(a.price), b.price)
  }

  predicate Uncrossed(s: seq<Order>, t: seq<Order>) {
    forall i, j :: 0 <= i < |s| && 0 <= j < |t| ==> !Crosses(s[i], t[j])
  }

  function Without(s: seq<Order>, k: nat): seq<Order>
    requires k < |s|
  {
    s[..k] + s[k + 1..]
  }

  lemma CrossesSymmetric(a: Order, b: Order)
    ensures Crosses(a, b) <==> Crosses(b, a)
  {
  }

  /** What crosses an order also crosses every order ahead of it on the same side. */
  lemma AheadCrossesMore(ahead: Order, behind: Order, other: Order)
    requires Before(ahead, behind) && Crosses(behind, other)
    ensures Crosses(ahead, other)
  {
    var a, b, o := ahead.price, behind.price, other.price;
    assert b.base * a.quote <= a.base * b.quote;
    assert b.quote * o.quote <= o.base * b.base;
    MulMono(b.quote * o.quote, o.base * b.base, a.quote);
    MulMono(b.base * a.quote, a.base * b.quote, o.base);
    Comm3(b.quote, o.quote, a.quote);
    Comm3(o.base, b.base, a.quote);
    Comm3(o.base, a.base, b.quote);
    MulCancel(a.quote * o.quote, o.base * a.base, b.quote);
  }

  /** What the taker cannot sell to a maker it crosses, it cannot sell at its own price either. */
  lemma DustAtMakerIsDust(x: nat, taker: Order, maker: Order)
    requires Crosses(taker, maker) && ToBase(x, maker.price) == 0
    ensures ToQuote(x, taker.price) == 0
  {
    WorseRateConvertsLess(x, Inverse(taker.price), maker.price);
  }

  /** Number of orders, from the front, that cross the given one. */
  function CountCrossing(s: seq<Order>, taker: Order): (n: nat)
    requires Sorted(s)
    ensures n <= |s|
    ensures forall i :: 0 <= i < n ==> Crosses(taker, s[i])
    ensures forall i :: n <= i < |s| ==> !Crosses(taker, s[i])
  {
    if s == [] || !Crosses(taker, s[0]) then
      assert forall i :: 0 <= i < |s| ==> !Crosses(taker, s[i]) by {
        forall i | 0 <= i < |s| ensures !Crosses(taker, s[i]) {
          if i > 0 && Crosses(taker, s[i]) {
            CrossesSymmetric(taker, s[i]);
            AheadCrossesMore(s[0], s[i], taker);
            CrossesSymmetric(s[0], taker);
          }
        }
      }
      0
    else
      var n := CountCrossing(s[1..], taker);
      assert forall i :: 1 <= i < |s| ==> s[i] == s[1..][i - 1];
      n + 1
  }

  /** One trade: the taker's and the maker's fill mirror each other at the maker's price, within one unit of it. */
  predicate IsTrade(t: Fill, m: Fill, taker: Order, maker: Order) {
    && t.order == taker.id && t.seller == taker.seller && !t.isMaker
    && m.order == maker.id && m.seller == maker.seller && m.isMaker
    && t.pays == m.receives > 0 && t.receives == m.pays > 0
    && t.price == m.price == maker.price
    && (|| (t.pays - 1) * maker.price.base < t.receives * maker.price.quote <= t.pays * maker.price.base
        || (t.receives - 1) * maker.price.quote < t.pays * maker.price.base <= t.receives * maker.price.quote)
  }

  /** A log of trades, in pairs, of one taker with the makers in book order. */
  predicate TradesInOrder(log: seq<Fill>, taker: Order, makers: seq<Order>) {
    && |log| % 2 == 0 && |log| / 2 <= |makers|
    && forall i :: 0 <= i < |log| / 2 ==> IsTrade(log[2 * i], log[2 * i + 1], taker, makers[i])
  }

  /** The first `n` orders are gone, and the next one may have been reduced but is not dust. */
  predicate PrefixConsumed(before: seq<Order>, after: seq<Order>, n: nat) {
    && n <= |before|
    && (|| after == before[n..]
        || (&& n < |before| && |after| == |before| - n
            && after == before[n..][0 := before[n].(forSale := after[0].forSale)]
            && after[0].forSale < before[n].forSale && after[0].ToReceive() > 0))
  }

  /** What comes back to an order that leaves the book after it paid `pays`. */
  function Back(o: Order, pays: nat): seq<Refund>
    requires pays <= o.forSale
  {
    if pays < o.forSale then [Refund(o.id, o.seller, o.forSale - pays)] else []
  }

  /** No maker pays more than it has. */
  predicate WithinMakers(log: seq<Fill>, makers: seq<Order>, n: nat) {
    n <= |makers| && 2 * n <= |log| && forall i :: 0 <= i < n ==> log[2 * i + 1].pays <= makers[i].forSale
  }

  /** What comes back to the first `n` makers. */
  function MakersBack(log: seq<Fill>, makers: seq<Order>, n: nat): seq<Refund>
    requires WithinMakers(log, makers, n)
  {
    if n == 0 then [] else MakersBack(log, makers, n - 1) + Back(makers[n - 1], log[2 * n - 1].pays)
  }

  /** What the taker pays in the first `n` trades. */
  function TakerPays(log: seq<Fill>, n: nat): nat
    requires 2 * n <= |log|
  {
    if n == 0 then 0 else TakerPays(log, n - 1) + log[2 * n - 2].pays
  }

  /** After `n` trades, each of which used up the maker, `left` of the taker is left. */
  ghost predicate Running(taker: Order, makers: seq<Order>, log: seq<Fill>, refunds: seq<Refund>, n: nat, left: nat) {
    && |log| == 2 * n && WithinMakers(log, makers, n)
    && TakerPays(log, n) + left == taker.forSale && refunds == MakersBack(log, makers, n)
  }

  /**
   * The fills and refunds of a whole match account for every order.  The taker's payments, what
   * comes back to it and what stays in the book are what it had for sale; the payment and the
   * refund of each maker that left, or the payment and the rest of the one that did not, are
   * what that maker had.  The taker's refund comes before that of the maker it last traded with
   * or after all others.
   */
  ghost predicate Accounted(taker: Order, makers: seq<Order>, makers': seq<Order>, log: seq<Fill>, refunds: seq<Refund>,
                            consumed: nat, rest: nat)
  {
    && |log| % 2 == 0 && consumed <= |log| / 2 <= consumed + 1 && WithinMakers(log, makers, |log| / 2)
    && (|log| / 2 > consumed ==>
          makers' != [] && makers'[0].id == makers[consumed].id
          && log[2 * consumed + 1].pays + makers'[0].forSale == makers[consumed].forSale)
    && TakerPays(log, |log| / 2) + rest <= taker.forSale
    && var back := Back(taker, TakerPays(log, |log| / 2) + rest);
       exists m :: 0 <= m <= consumed <= m + 1
                   && refunds == MakersBack(log, makers, m) + back
                                 + (if m < consumed then Back(makers[m], log[2 * m + 1].pays) else [])
  }

  lemma {:induction false} PrefixCounts(log: seq<Fill>, log': seq<Fill>, makers: seq<Order>, n: nat)
    requires WithinMakers(log, makers, n) && |log| <= |log'| && log'[..|log|] == log
    ensures WithinMakers(log', makers, n) && TakerPays(log', n) == TakerPays(log, n)
    ensures MakersBack(log', makers, n) == MakersBack(log, makers, n)
  {
    forall i | 0 <= i < n ensures log'[2 * i] == log[2 * i] && log'[2 * i + 1] == log[2 * i + 1] {
      assert log'[..|log|][2 * i] == log[2 * i] && log'[..|log|][2 * i + 1] == log[2 * i + 1];
    }
    if n > 0 { PrefixCounts(log, log', makers, n - 1); }
  }

  /** One more trade that uses up the maker and leaves some of the taker. */
  lemma RunsOn(taker: Order, makers: seq<Order>, log: seq<Fill>, refunds: seq<Refund>, n: nat, left: nat, log': seq<Fill>,
               refunds': seq<Refund>)
    requires Running(taker, makers, log, refunds, n, left) && n < |makers|
    requires |log'| == |log| + 2 && log'[..|log|] == log
    requires log'[2 * n].pays <= left && log'[2 * n + 1].pays <= makers[n].forSale
    requires refunds' == refunds + Back(makers[n], log'[2 * n + 1].pays)
    ensures Running(taker, makers, log', refunds', n + 1, left - log'[2 * n].pays)
  {
    PrefixCounts(log, log', makers, n);
  }

  /** One more trade that uses up the taker, and perhaps the maker too. */
  lemma EndsHere(taker: Order, makers: seq<Order>, makers': seq<Order>, log: seq<Fill>, refunds: seq<Refund>, n: nat, left: nat,
                 log': seq<Fill>, refunds': seq<Refund>, makerGone: bool)
    requires Running(taker, makers, log, refunds, n, left) && n < |makers|
    requires |log'| == |log| + 2 && log'[..|log|] == log
    requires log'[2 * n].pays <= left && log'[2 * n + 1].pays <= makers[n].forSale
    requires refunds' == refunds + Back(taker.(forSale := left), log'[2 * n].pays)
                         + if makerGone then Back(makers[n], log'[2 * n + 1].pays) else []
    requires !makerGone ==> makers' != [] && makers'[0] == makers[n].(forSale := makers[n].forSale - log'[2 * n + 1].pays)
    ensures Accounted(taker, makers, makers', log', refunds', if makerGone then n + 1 else n, 0)
  {
    PrefixCounts(log, log', makers, n);
    assert |log'| / 2 == n + 1;
    assert TakerPays(log', n + 1) == TakerPays(log, n) + log'[2 * n].pays;
    assert Back(taker.(forSale := left), log'[2 * n].pays) == Back(taker, TakerPays(log', n + 1));
  }

  /** Without another trade what is left of the taker stays in the book or goes back. */
  lemma StopsHere(taker: Order, makers: seq<Order>, makers': seq<Order>, log: seq<Fill>, refunds: seq<Refund>, n: nat, left: nat)
    requires Running(taker, makers, log, refunds, n, left)
    ensures Accounted(taker, makers, makers', log, refunds, n, left)
    ensures left > 0 ==> Accounted(taker, makers, makers', log, refunds + [Refund(taker.id, taker.seller, left)], n, 0)
  {
    assert |log| / 2 == n;
    assert refunds + Back(taker, TakerPays(log, n) + left) + [] == refunds;
  }

  /** What has been logged since: trades in order, which account for all orders, or do so far. */
  ghost predicate Logged(log: seq<Fill>, fills: seq<Fill>, back: seq<Refund>, refunds: seq<Refund>, taker: Order, opp: seq<Order>,
                         opp': seq<Order>, consumed: nat, left: nat, takerGone: bool)
  {
    && |log| <= |fills| && fills[..|log|] == log && |back| <= |refunds| && refunds[..|back|] == back
    && TradesInOrder(fills[|log|..], taker, opp) && consumed <= |fills[|log|..]| / 2 <= consumed + 1
    && (if takerGone then Accounted(taker, opp, opp', fills[|log|..], refunds[|back|..], consumed, 0)
        else Running(taker, opp, fills[|log|..], refunds[|back|..], consumed, left))
  }

  lemma NothingLogged(fills: seq<Fill>, refunds: seq<Refund>, taker: Order, opp: seq<Order>)
    ensures Logged(fills, fills, refunds, refunds, taker, opp, opp, 0, taker.forSale, false)
  {
    assert fills[|fills|..] == [] && refunds[|refunds|..] == [];
  }

  lemma LogGrows(log: seq<Fill>, soFar: seq<Fill>, fills: seq<Fill>)
    requires |log| <= |soFar| && |fills| == |soFar| + 2 && fills[..|soFar|] == soFar
    ensures fills[|log|..][..|soFar[|log|..]|] == soFar[|log|..]
    ensures fills[|log|..][|soFar| - |log|] == fills[|soFar|] && fills[|log|..][|soFar| - |log| + 1] == fills[|soFar| + 1]
  {
  }

  lemma RefundsGrow(back: seq<Refund>, returned: seq<Refund>, more: seq<Refund>, refunds: seq<Refund>)
    requires |back| <= |returned| && returned[..|back|] == back && refunds == returned + more
    ensures |back| <= |refunds| && refunds[..|back|] == back && refunds[|back|..] == returned[|back|..] + more
  {
    assert refunds[..|returned|] == returned;
  }

  /** One more trade. */
  lemma TradeIsLogged(log: seq<Fill>, soFar: seq<Fill>, fills: seq<Fill>, back: seq<Refund>, returned: seq<Refund>,
                      refunds: seq<Refund>, taker: Order, left: nat, opp: seq<Order>, opp': seq<Order>, i: nat, result: MatchResult)
    requires i < |opp| && Logged(log, soFar, back, returned, taker, opp, opp[i..], i, left, false)
    requires |fills| == |soFar| + 2 && fills[..|soFar|] == soFar
    requires IsTrade(fills[|soFar|], fills[|soFar| + 1], taker.(forSale := left), opp[i])
    requires fills[|soFar|].pays <= left && fills[|soFar| + 1].pays <= opp[i].forSale
    requires refunds == returned + (if result == OnlyMakerFilled then [] else Back(taker.(forSale := left), fills[|soFar|].pays))
                        + (if result == OnlyTakerFilled then [] else Back(opp[i], fills[|soFar| + 1].pays))
    requires result == OnlyTakerFilled ==> opp' != [] && opp'[0] == opp[i].(forSale := opp[i].forSale - fills[|soFar| + 1].pays)
    ensures Logged(log, fills, back, refunds, taker, opp, opp', if result == OnlyTakerFilled then i else i + 1,
                   left - fills[|soFar|].pays, result != OnlyMakerFilled)
  {
    hide Back, Accounted, IsTrade, TradesInOrder;
    assert |soFar[|log|..]| == 2 * i;
    OneMoreTrade(log, soFar, fills, taker.(forSale := left), taker, opp, i);
    var now := fills[|log|..];
    LogGrows(log, soFar, fills);
    RefundsGrow(back, returned, (if result == OnlyMakerFilled then [] else Back(taker.(forSale := left), fills[|soFar|].pays))
                                + (if result == OnlyTakerFilled then [] else Back(opp[i], fills[|soFar| + 1].pays)), refunds);
    if result == OnlyMakerFilled {
      RunsOn(taker, opp, soFar[|log|..], returned[|back|..], i, left, now, refunds[|back|..]);
    } else {
      EndsHere(taker, opp, opp', soFar[|log|..], returned[|back|..], i, left, now, refunds[|back|..], result == BothFilled);
    }
  }

  /** What is left of the taker stays in the book or goes back. */
  lemma RestIsLogged(log: seq<Fill>, fills: seq<Fill>, back: seq<Refund>, returned: seq<Refund>, refunds: seq<Refund>, taker: Order,
                     opp: seq<Order>, opp': seq<Order>, consumed: nat, left: nat, takerGone: bool, gone: bool)
    requires Logged(log, fills, back, returned, taker, opp, opp', consumed, left, takerGone)
    requires takerGone ==> gone
    requires !takerGone && gone ==> left > 0 && refunds == returned + [Refund(taker.id, taker.seller, left)]
    requires takerGone || !gone ==> refunds == returned
    ensures |log| <= |fills| && fills[..|log|] == log && |back| <= |refunds| && refunds[..|back|] == back
    ensures TradesInOrder(fills[|log|..], taker, opp) && consumed <= |fills[|log|..]| / 2 <= consumed + 1
    ensures Accounted(taker, opp, opp', fills[|log|..], refunds[|back|..], consumed, if gone then 0 else left)
  {
    hide Accounted, Running, TradesInOrder;
    if !takerGone {
      StopsHere(taker, opp, opp', fills[|log|..], returned[|back|..], consumed, left);
      if gone { assert refunds[|back|..] == returned[|back|..] + [Refund(taker.id, taker.seller, left)]; }
    }
  }

  /** The quoted amounts are a trade within both orders, after which one of the two is used up but for dust. */
  lemma QuotedIsTrade(taker: Order, maker: Order)
    requires taker.forSale > 0 && maker.ToReceive() > 0 && Crosses(taker, maker)
    ensures match QuoteLimits(taker.forSale, maker.forSale, maker.price)
            case TakerTooSmall => taker.ToReceive() == 0
            case Exchange(pays, receives, takerSmaller) =>
              && pays <= taker.forSale && 0 < receives <= maker.forSale
              && IsTrade(Fill(taker.id, taker.seller, pays, receives, maker.price, false),
                         Fill(maker.id, maker.seller, receives, pays, maker.price, true), taker, maker)
              && (if takerSmaller then taker.(forSale := taker.forSale - pays).ToReceive() == 0
                  else pays < taker.forSale && maker.(forSale := maker.forSale - receives).ToReceive() == 0)
  {
    hide ToQuote, ToBase, AtMost, QuoteLimits;
    QuoteLimitsSound(taker.forSale, maker.forSale, maker.price);
    match QuoteLimits(taker.forSale, maker.forSale, maker.price)
    case TakerTooSmall => DustAtMakerIsDust(taker.forSale, taker, maker);
    case Exchange(pays, _, takerSmaller) =>
      if takerSmaller { DustAtMakerIsDust(taker.forSale - pays, taker, maker); }
  }

  class Book {
    var sides: map<Side, seq<Order>>
    var fills: seq<Fill>
    var refunds: seq<Refund>

    constructor ()
      ensures Valid() && sides == map[Bid := [], Ask := []] && fills == [] && refunds == []
    {
      sides, fills, refunds := map[Bid := [], Ask := []], [], [];
    }

    /** Both sides present, sorted, and without dust. */
    predicate WellFormed()
      reads this
    {
      && sides.Keys == {Bid, Ask}
      && Sorted(sides[Bid]) && Sorted(sides[Ask])
      && UniqueIds(sides[Bid]) && UniqueIds(sides[Ask])
      && DustFree(sides[Bid]) && DustFree(sides[Ask])
    }

    /** A book at rest: nothing left to match. */
    predicate Valid()
      reads this
    {
      WellFormed() && Uncrossed(sides[Bid], sides[Ask])
    }

    /** Removes the front order if it is too small to receive anything. */
    method MaybeCull(side: Side) returns (culled: bool)
      requires side in sides && sides[side] != []
      modifies this`sides, this`refunds
      ensures culled == (old(sides[side][0]).ToReceive() == 0)
      ensures culled ==> sides == old(sides)[side := old(sides[side])[1..]]
      ensures culled ==> refunds == old(refunds) + [Refund(old(sides[side][0].id), old(sides[side][0].seller), old(sides[side][0].forSale))]
      ensures !culled ==> sides == old(sides) && refunds == old(refunds)
    {
      var order := sides[side][0];
      if order.ToReceive() == 0 {
        refunds := refunds + [Refund(order.id, order.seller, order.forSale)];
        sides := sides[side := sides[side][1..]];
        return true;
      }
      return false;
    }

    /** Fills the front order of a side; reports whether it left the book. */
    method FillFront(side: Side, pays: nat, receives: nat, cull: bool, price: Price, isMaker: bool)
      returns (filled: bool)
      requires side in sides && sides[side] != [] && pays <= sides[side][0].forSale
      modifies this
      ensures fills == old(fills) + [Fill(old(sides[side][0].id), old(sides[side][0].seller), pays, receives, price, isMaker)]
      ensures var left := old(sides[side][0].(forSale := sides[side][0].forSale - pays));
              && filled == (left.forSale == 0 || (cull && left.ToReceive() == 0))
              && sides == old(sides)[side := if filled then old(sides[side])[1..] else old(sides[side])[0 := left]]
              && refunds == old(refunds) + if filled then Back(old(sides[side][0]), pays) else []
    {
      var order := sides[side][0];
      fills := fills + [Fill(order.id, order.seller, pays, receives, price, isMaker)];
      if pays == order.forSale {
        sides := sides[side := sides[side][1..]];
        return true;
      }
      sides := sides[side := sides[side][0 := order.(forSale := order.forSale - pays)]];
      if cull {
        filled := MaybeCull(side);
        return;
      }
      return false;
    }

    /** Matches the front order of `side`, the taker, with the front order of the other side. */
    method Match(side: Side) returns (result: MatchResult, traded: bool)
      requires sides.Keys == {Bid, Ask} && sides[side] != [] && sides[side.Other()] != []
      requires sides[side][0].forSale > 0 && sides[side.Other()][0].ToReceive() > 0
      requires Crosses(sides[side][0], sides[side.Other()][0])
      modifies this
      ensures sides.Keys == {Bid, Ask}
      ensures var own, opp := old(sides[side]), old(sides[side.Other()]);
              && (!traded ==> && result == OnlyTakerFilled && own[0].ToReceive() == 0
                              && sides == old(sides) && fills == old(fills) && refunds == old(refunds))
              && (traded ==> && |fills| == |old(fills)| + 2 && fills[..|old(fills)|] == old(fills)
                             && IsTrade(fills[|old(fills)|], fills[|old(fills)| + 1], own[0], opp[0])
                             && fills[|old(fills)|].pays <= own[0].forSale && fills[|old(fills)| + 1].pays <= opp[0].forSale
                             && refunds == old(refunds)
                                           + (if result == OnlyMakerFilled then [] else Back(own[0], fills[|old(fills)|].pays))
                                           + (if result == OnlyTakerFilled then [] else Back(opp[0], fills[|old(fills)| + 1].pays)))
              && (traded && result == OnlyMakerFilled ==>
                    && fills[|old(fills)|].pays < own[0].forSale
                    && sides[side] == own[0 := own[0].(forSale := own[0].forSale - fills[|old(fills)|].pays)]
                    && sides[side.Other()] == opp[1..])
              && (traded && result != OnlyMakerFilled ==>
                    && sides[side] == own[1..]
                    && (if result == BothFilled then sides[side.Other()] == opp[1..]
                        else && PrefixConsumed(opp, sides[side.Other()], 0)
                             && sides[side.Other()] == opp[0 := opp[0].(forSale := opp[0].forSale - fills[|old(fills)| + 1].pays)] != opp))
    {
      hide Back, ToQuote, ToBase, AtMost, IsTrade, QuoteLimits;
      var taker, maker := sides[side][0], sides[side.Other()][0];
      QuotedIsTrade(taker, maker);
      match QuoteLimits(taker.forSale, maker.forSale, maker.price)
      case TakerTooSmall =>
        return OnlyTakerFilled, false;
      case Exchange(takerPays, takerReceives, takerSmaller) =>
        var takerFilled := FillFront(side, takerPays, takerReceives, takerSmaller, maker.price, false);
        var makerFilled := FillFront(side.Other(), takerReceives, takerPays, true, maker.price, true);
        assert takerFilled || makerFilled;
        return if takerFilled && makerFilled then BothFilled
               else if takerFilled then OnlyTakerFilled else OnlyMakerFilled, true;
    }

    /**
     * Matches a newly placed or changed order, the one at position `k` of its side, with
     * the other side.  The book ends at rest, and `Applied` says what became of it.
     * `gone` tells whether the order left the book; `consumed` counts the makers that did.
     */
    method ApplyOrder(side: Side, k: nat) returns (gone: bool, ghost consumed: nat)
      requires WellFormed() && k < |sides[side]|
      requires Uncrossed(Without(sides[side], k), sides[side.Other()])
      modifies this
      ensures Valid()
      ensures |old(fills)| <= |fills| && fills[..|old(fills)|] == old(fills)
      ensures |old(refunds)| <= |refunds| && refunds[..|old(refunds)|] == old(refunds)
      ensures Applied(old(sides[side]), k, old(sides[side.Other()]), sides[side], sides[side.Other()],
                      fills[|old(fills)|..], gone, consumed)
      ensures Accounted(old(sides[side][k]), old(sides[side.Other()]), sides[side.Other()], fills[|old(fills)|..],
                        refunds[|old(refunds)|..], consumed, if gone then 0 else sides[side][k].forSale)
    {
      hide Applied, Sorted, Uncrossed, UniqueIds, DustFree;
      ghost var own, opp, log := sides[side], sides[side.Other()], fills;
      if k != 0 {
        BehindDoesNotCross(own, k, opp);
        assert fills[|log|..] == [] && refunds[|refunds|..] == [];
        StopsHere(own[k], opp, opp, [], [], 0, own[k].forSale);
        BehindIsKept(own, k, opp);
        return false, 0;
      }
      assert Without(own, 0) == own[1..];
      gone, consumed := ApplyFront(side);
    }

    /** The same for an order at the front of its side. */
    method ApplyFront(side: Side) returns (gone: bool, ghost consumed: nat)
      requires WellFormed() && sides[side] != []
      requires Uncrossed(sides[side][1..], sides[side.Other()])
      modifies this
      ensures Valid()
      ensures |old(fills)| <= |fills| && fills[..|old(fills)|] == old(fills)
      ensures |old(refunds)| <= |refunds| && refunds[..|old(refunds)|] == old(refunds)
      ensures Applied(old(sides[side]), 0, old(sides[side.Other()]), sides[side], sides[side.Other()],
                      fills[|old(fills)|..], gone, consumed)
      ensures Accounted(old(sides[side][0]), old(sides[side.Other()]), sides[side.Other()], fills[|old(fills)|..],
                        refunds[|old(refunds)|..], consumed, if gone then 0 else sides[side][0].forSale)
    {
      hide Applied, Sorted, Uncrossed, DustFree, TradesInOrder, AtMost, Accounted, Logged;
      ghost var own, opp, log, back := sides[side], sides[side.Other()], fills, refunds;
      var taker := sides[side][0];
      assert taker.ToReceive() > 0 by { FrontIsNoDust(own); }
      ghost var left, limitEnd;
      consumed, left, limitEnd := MatchLoop(side);
      assert LoopEnded(own, opp, sides[side], sides[side.Other()], consumed, left, limitEnd);
      assert sides[side] != own[1..] ==> sides[side] == own[0 := taker.(forSale := left)];
      assert sides[side] == own[1..] ==> sides[side] == [] || sides[side][0].id != taker.id;
      gone := true;
      ghost var loop, returned := sides[side], refunds;
      if sides[side] != [] && sides[side][0].id == taker.id {
        gone := MaybeCull(side);
      }
      RestIsLogged(log, fills, back, returned, refunds, taker, opp, sides[side.Other()], consumed, left, loop == own[1..], gone);
      FrontApplied(own, opp, loop, sides[side], sides[side.Other()], fills[|log|..], gone, consumed, left, limitEnd);
      assert own[0 := taker.(forSale := left)][1..] == own[1..];
      RestIsValid(own, opp, sides[side], sides[side.Other()], consumed, limitEnd, gone);
      UncrossedSymmetric(sides[side], sides[side.Other()]);
    }

    /** The matching loop for the order at the front of its side. */
    method MatchLoop(side: Side) returns (ghost consumed: nat, ghost left: nat, ghost limitEnd: nat)
      requires sides.Keys == {Bid, Ask} && sides[side] != [] && sides[side][0].forSale > 0
      requires Sorted(sides[side.Other()]) && DustFree(sides[side.Other()])
      modifies this
      ensures sides.Keys == {Bid, Ask}
      ensures limitEnd == CountCrossing(old(sides[side.Other()]), old(sides[side][0]))
      ensures LoopEnded(old(sides[side]), old(sides[side.Other()]), sides[side], sides[side.Other()],
                        consumed, left, limitEnd)
      ensures Logged(old(fills), fills, old(refunds), refunds, old(sides[side][0]), old(sides[side.Other()]), sides[side.Other()],
                     consumed, left, sides[side] == old(sides[side])[1..])
    {
      hide IsTrade, Sorted, AtMost, Back, Logged;
      ghost var own, opp, log, back := sides[side], sides[side.Other()], fills, refunds;
      var taker := sides[side][0];
      NothingLogged(log, back, taker, opp);
      var end := CountCrossing(sides[side.Other()], taker);
      limitEnd := end;
      var i, finished := 0, false;
      consumed, left := 0, taker.forSale;
      while !finished && i < end
        invariant 0 <= i <= end && sides.Keys == {Bid, Ask}
        invariant !finished ==> consumed == i && 0 < left <= taker.forSale && sides[side] == own[0 := taker.(forSale := left)]
        invariant !finished ==> sides[side.Other()] == opp[i..]
        invariant finished ==> LoopEnded(own, opp, sides[side], sides[side.Other()], consumed, left, limitEnd)
        invariant Logged(log, fills, back, refunds, taker, opp, sides[side.Other()], consumed, left, sides[side] == own[1..])
      {
        ghost var soFar, returned := fills, refunds;
        assert sides[side.Other()][0] == opp[i];
        assert Crosses(taker.(forSale := left), opp[i]);
        var result, traded := Match(side);
        if traded {
          TradeIsLogged(log, soFar, fills, back, returned, refunds, taker, left, opp, sides[side.Other()], i, result);
          left := left - fills[|soFar|].pays;
        }
        finished := result != OnlyMakerFilled;
        assert opp[i..][1..] == opp[i + 1..];
        if traded && result != OnlyTakerFilled { consumed := i + 1; }
        i := i + 1;
      }
    }
  }

  /** What `ApplyOrder` does to the two sides and to the log of fills. */
  ghost predicate Applied(own: seq<Order>, k: nat, opp: seq<Order>, own': seq<Order>, opp': seq<Order>,
                          log: seq<Fill>, gone: bool, consumed: nat)
    requires k < |own|
  {
    // makers leave from the front, only while they cross, and at most one more is reduced
    && PrefixConsumed(opp, opp', consumed)
    && (forall i :: 0 <= i < consumed ==> Crosses(own[k], opp[i]))
    && (opp' != opp[consumed..] ==> gone && Crosses(own[k], opp[consumed]))
    // the order is gone or reduced, the rest of its side is untouched
    && (if gone then own' == Without(own, k)
        else |own'| == |own| && own' == own[k := own[k].(forSale := own'[k].forSale)]
             && 0 < own'[k].forSale <= own[k].forSale)
    // it traded with the makers in book order
    && TradesInOrder(log, own[k], opp)
    && consumed <= |log| / 2 <= consumed + 1
  }

  /** State after the loop: the taker is gone, or it is too small, or no crossing maker is left. */
  ghost predicate LoopEnded(own: seq<Order>, opp: seq<Order>, own': seq<Order>, opp': seq<Order>,
                            consumed: nat, left: nat, limitEnd: nat)
    requires own != []
  {
    && consumed <= limitEnd <= |opp|
    && (|| (own' == own[1..] && PrefixConsumed(opp, opp', consumed)
            && (opp' != opp[consumed..] ==> consumed < limitEnd))
        || (own' == own[0 := own[0].(forSale := left)] && opp' == opp[consumed..] && 0 < left <= own[0].forSale
            && (ToQuote(left, own[0].price) == 0 || consumed == limitEnd)))
  }

  lemma UncrossedSymmetric(s: seq<Order>, t: seq<Order>)
    requires Uncrossed(s, t)
    ensures Uncrossed(t, s)
  {
    forall i, j | 0 <= i < |t| && 0 <= j < |s| ensures !Crosses(t[i], s[j]) {
      CrossesSymmetric(t[i], s[j]);
    }
  }

  lemma {:induction false} BehindIsKept(own: seq<Order>, k: nat, opp: seq<Order>)
    requires k < |own| && DustFree(own)
    ensures Applied(own, k, opp, own, opp, [], false, 0)
  {
    assert own == own[k := own[k].(forSale := own[k].forSale)];
    assert own[k].ToReceive() > 0;
  }

  /** What the loop and the removal of dust leave is what `Applied` says. */
  lemma {:induction false} FrontApplied(own: seq<Order>, opp: seq<Order>, loop: seq<Order>, own': seq<Order>, opp': seq<Order>,
                                        log: seq<Fill>, gone: bool, consumed: nat, left: nat, limitEnd: nat)
    requires own != [] && LoopEnded(own, opp, loop, opp', consumed, left, limitEnd) && UniqueIds(own)
    requires forall i :: 0 <= i < limitEnd ==> Crosses(own[0], opp[i])
    requires loop == own[1..] ==> gone && own' == loop
    requires loop != own[1..] ==> own' == if gone then loop[1..] else loop
    requires TradesInOrder(log, own[0], opp) && consumed <= |log| / 2 <= consumed + 1
    ensures Applied(own, 0, opp, own', opp', log, gone, consumed)
  {
    hide Crosses, TradesInOrder;
    assert Without(own, 0) == own[1..];
    if loop != own[1..] {
      assert loop[1..] == own[1..];
    }
  }

  lemma FrontIsNoDust(s: seq<Order>)
    requires DustFree(s) && s != []
    ensures s[0].ToReceive() > 0
  {
  }

  lemma NothingTradedYet(taker: Order, makers: seq<Order>)
    ensures TradesInOrder([], taker, makers) && Running(taker, makers, [], [], 0, taker.forSale)
  {
  }

  /** An order that is not at the front cannot match: the one ahead of it would have. */
  lemma BehindDoesNotCross(own: seq<Order>, k: nat, opp: seq<Order>)
    requires Sorted(own) && 0 < k < |own| && Uncrossed(Without(own, k), opp)
    ensures Uncrossed(own, opp) && Uncrossed(opp, own)
  {
    assert Without(own, k)[0] == own[0];
    forall i, j | 0 <= i < |own| && 0 <= j < |opp| ensures !Crosses(own[i], opp[j]) {
      if i == k {
        if Crosses(own[k], opp[j]) { AheadCrossesMore(own[0], own[k], opp[j]); }
      } else {
        assert own[i] == Without(own, k)[if i < k then i else i - 1];
      }
    }
    UncrossedSymmetric(own, opp);
  }

  /** Appending the trade with maker `i` to a log of `i` trades. */
  lemma OneMoreTrade(log: seq<Fill>, soFar: seq<Fill>, fills: seq<Fill>, current: Order, taker: Order,
                     opp: seq<Order>, i: nat)
    requires |log| <= |soFar| && soFar[..|log|] == log && |soFar[|log|..]| == 2 * i && i < |opp|
    requires TradesInOrder(soFar[|log|..], taker, opp)
    requires |fills| == |soFar| + 2 && fills[..|soFar|] == soFar
    requires IsTrade(fills[|soFar|], fills[|soFar| + 1], current, opp[i])
    requires current.id == taker.id && current.seller == taker.seller
    ensures fills[..|log|] == log && |fills[|log|..]| == 2 * i + 2
    ensures TradesInOrder(fills[|log|..], taker, opp)
  {
    assert fills[..|log|] == soFar[..|log|];
    var old_, new_ := soFar[|log|..], fills[|log|..];
    assert new_[..2 * i] == old_;
    forall j | 0 <= j < |new_| / 2 ensures IsTrade(new_[2 * j], new_[2 * j + 1], taker, opp[j]) {
      if j < i {
        assert new_[2 * j] == old_[2 * j] && new_[2 * j + 1] == old_[2 * j + 1];
      } else {
        assert new_[2 * j] == fills[|soFar|] && new_[2 * j + 1] == fills[|soFar| + 1];
      }
    }
  }

  /** What remains after the loop is sorted, dust-free and uncrossed. */
  lemma RestIsValid(own: seq<Order>, opp: seq<Order>, own': seq<Order>, opp': seq<Order>,
                    consumed: nat, limitEnd: nat, gone: bool)
    requires own != [] && Sorted(own) && Sorted(opp) && UniqueIds(own) && UniqueIds(opp)
    requires DustFree(own) && DustFree(opp) && Uncrossed(own[1..], opp)
    requires limitEnd <= |opp| && forall i :: limitEnd <= i < |opp| ==> !Crosses(own[0], opp[i])
    requires PrefixConsumed(opp, opp', consumed)
    requires gone ==> own' == own[1..]
    requires !gone ==> |own'| == |own| && own' == own[0 := own[0].(forSale := own'[0].forSale)]
                       && own'[0].ToReceive() > 0 && consumed >= limitEnd && opp' == opp[consumed..]
    ensures Sorted(own') && Sorted(opp') && UniqueIds(own') && UniqueIds(opp')
    ensures DustFree(own') && DustFree(opp') && Uncrossed(own', opp')
  {
    assert forall i :: 0 <= i < |opp'| ==> opp'[i].price == opp[consumed + i].price && opp'[i].id == opp[consumed + i].id;
    var shift := if gone then 1 else 0;
    assert forall i :: 0 <= i < |own'| ==> own'[i].price == own[shift + i].price && own'[i].id == own[shift + i].id;
    forall i, j | 0 <= i < |own'| && 0 <= j < |opp'| ensures !Crosses(own'[i], opp'[j]) {
      if shift + i > 0 {
        assert own[shift + i] == own[1..][shift + i - 1];
        assert !Crosses(own[1..][shift + i - 1], opp[consumed + j]);
      }
    }
  }
}
