/**
 * The amounts that change hands when a force-settlement order meets a margin
 * position.  Prices here are in debt per collateral.
 */
module SettleMatch {
  import opened Wrappers
  import opened Prices
  import opened PriceScale
  import opened MaxDebt

  datatype Outcome =
    /** The settle order is too small to receive anything and is cancelled. */
    | SettleCancelled
    /** Neither order changes. */
    | NothingDone
    /**
     * The position pays `callPays` collateral and has `covers` of its debt covered by the
     * settle order, which receives `settleReceives`; the rest is the margin call fee.
     * `matchPrice` and `fillPrice` are the prices finally used.  `cull`: the rest of the
     * settle order is too small and is cancelled.
     */
    | Settled(callPays: nat, covers: nat, settleReceives: nat, matchPrice: Price, fillPrice: Price, cull: bool)

  /** A request to match; `fillPrice` is only used when the position is being margin called. */
  datatype Request = Request(c: Position, balance: nat, limit: nat, matchPrice: Price, fillPrice: Price,
                             paysNum: nat, paysDen: nat, isMarginCall: bool)
  {
    /**
     * What the callers provide: open orders and, for a margin call, a limit that leaves
     * collateral if it leaves debt.
     */
    ghost predicate Valid() {
      && Open(c) && balance > 0 && 0 < paysNum <= paysDen
      && (isMarginCall ==> LimitAffordable(c, matchPrice, limit))
    }

    /** What the first pass would exchange. */
    function First(): nat {
      var s := if balance < limit then balance else limit;
      if s < c.debt then s else c.debt
    }
  }

  /** Paying `pay` to cover `cover` leaves the ratio of collateral to debt no lower. */
  predicate RatioKept(c: Position, cover: nat, pay: nat) {
    pay * c.debt <= cover * c.collateral
  }

  /** RatioKept says exactly that the new collateral/debt fraction is not below the old one. */
  lemma RatioKeptMeaning(c: Position, cover: nat, pay: nat)
    requires Open(c) && cover < c.debt && pay < c.collateral
    ensures RatioKept(c, cover, pay)
            <==> AtMost(Collateralization(c), Pair(c.collateral - pay, c.debt - cover))
  {
    assert c.collateral * (c.debt - cover) == c.collateral * c.debt - c.collateral * cover;
    assert (c.collateral - pay) * c.debt == c.collateral * c.debt - pay * c.debt;
  }

  /** Covering the limit at the rounded-up price leaves collateral if it leaves debt. */
  ghost predicate LimitAffordable(c: Position, matchPrice: Price, limit: nat) {
    limit <= c.debt && (limit < c.debt ==> ToQuoteUp(limit, matchPrice) < c.collateral)
  }

  /**
   * What a limit computed by `MaxDebtToCover` guarantees under an exact feed: covering a part of the debt
   * at the rounded-up price leaves collateral and does not lower the ratio, and a
   * position that cannot pay the match price out of its own ratio is covered in full.
   */
  ghost predicate LimitRaisesRatio(c: Position, matchPrice: Price, limit: nat) {
    && limit > 0 && LimitAffordable(c, matchPrice, limit)
    && (limit < c.debt ==> RatioKept(c, limit, ToQuoteUp(limit, matchPrice)))
    && (c.collateral * matchPrice.base <= matchPrice.quote * c.debt ==> limit == c.debt)
  }

  lemma LimitKeepsRatio(c: Position, matchPrice: Price, limit: nat)
    ensures LimitRaisesRatio(c, matchPrice, limit) && limit < c.debt ==> RatioKept(c, limit, ToQuoteUp(limit, matchPrice))
  {
  }

  lemma SomethingForNothing(c: Position)
    requires Open(c)
    ensures !RatioKept(c, 0, 1)
  {
  }

  /** The limit computed for a called position under an exact feed is such a limit. */
  lemma MaxDebtRaisesRatio(q: Query, r: nat)
    requires q.Valid() && q.Callable() && FeedIsExact(q)
    requires 0 < r <= q.c.debt
    requires r < q.c.debt ==> q.c.targetRatio.Some? && q.Reaches(r, ToBaseUp(r, q.rate))
    requires AtMost(Collateralization(q.c), q.rate) ==> r == q.c.debt
    ensures LimitRaisesRatio(q.c, Inverse(q.rate), r)
  {
    if r < q.c.debt {
      var pay := ToBaseUp(r, q.rate);
      var target := q.Target();
      ExactFeedCoversSomething(q);
      assert ToQuoteUp(r, Inverse(q.rate)) == pay;
      assert AtMost(Collateralization(q.c), target) by {
        ScaleIsExactInRange(q.feed, q.mcr, RATIO_DENOM);
        ScaleIsExactInRange(q.feed, q.Ratio(), RATIO_DENOM);
        UnderExactMultiple(q.c.collateral, q.c.debt, q.maintenance, q.feed, q.mcr, q.Ratio());
        BackToMultiple(q.c.collateral, q.c.debt, target, q.feed, q.Ratio());
      }
      BelowAbove(Collateralization(q.c), target, Pair(q.c.collateral - pay, q.c.debt - r));
      RatioKeptMeaning(q.c, r, pay);
    }
  }

  /**
   * Whatever is exchanged is exchanged at the two prices, up to rounding, and within both orders.
   * The difference of the two payments, the margin call fee, is not negative if the prices are
   * in order, as those of a feed always are.
   */
  ghost predicate Fair(q: Request, o: Outcome)
    requires o.Settled?
  {
    && 0 < o.covers <= q.First() && o.callPays <= q.c.collateral
    && ToQuote(o.covers, o.matchPrice) <= o.callPays <= ToQuoteUp(o.covers, o.matchPrice)
    && 0 < o.settleReceives <= ToQuoteUp(o.covers, o.fillPrice)
    && (AtMost(o.matchPrice, o.fillPrice) ==> ToQuote(o.covers, o.fillPrice) <= o.settleReceives <= o.callPays)
    && (o.covers < q.c.debt ==> o.callPays < q.c.collateral)
    // the ratio never falls, unless the limit itself would lower it
    && (o.covers < q.limit || (o.covers < q.c.debt && LimitRaisesRatio(q.c, q.matchPrice, q.limit))
        ==> RatioKept(q.c, o.covers, o.callPays))
  }

  /** The position cannot pay at the requested price and pays at its own ratio instead. */
  ghost predicate Capped(q: Request, o: Outcome)
    requires o.Settled? && q.c.debt > 0 && q.c.collateral > 0 && 0 < q.paysNum && 0 < q.paysDen
  {
    && o.matchPrice == Pair(q.c.debt, q.c.collateral)
    && o.fillPrice == Unscale(o.matchPrice, q.paysNum, q.paysDen)
    && AtMost(q.matchPrice, o.matchPrice) && AtMost(o.matchPrice, o.fillPrice)
  }

  /** Round-trip of the smaller settle order: what it receives, the debt that costs, and what the call pays for it. */
  lemma SmallerSettle(pays: nat, matchPrice: Price, fillPrice: Price)
    requires ToQuote(pays, fillPrice) > 0
    ensures var receives := ToQuote(pays, fillPrice);
            var covers := ToBaseUp(receives, fillPrice);
            && 0 < covers <= pays
            && ToQuote(covers, fillPrice) == receives
            && (AtMost(matchPrice, fillPrice) ==> receives <= ToQuote(covers, matchPrice))
  {
    hide ToQuote, ToBaseUp, ToBase, ToQuoteUp, AtMost;
    var receives := ToQuote(pays, fillPrice);
    var covers := ToBaseUp(receives, fillPrice);
    RoundUpIsLeast(pays, receives, fillPrice);
    RoundUpIsLeast(covers, receives, fillPrice);
    RoundUpIsLeast(0, receives, fillPrice);
    ConvertMono(covers, pays, fillPrice);
    ConvertMono(0, covers, fillPrice);
    NothingIsWorthNothing(fillPrice);
    HigherPriceIsCheaper(covers, matchPrice, fillPrice);
  }

  /** At a higher price in debt per collateral, the same debt is worth less. */
  lemma HigherPriceIsCheaper(x: nat, low: Price, high: Price)
    ensures AtMost(low, high) ==> ToQuote(x, high) <= ToQuote(x, low) && ToQuoteUp(x, high) <= ToQuoteUp(x, low)
  {
    if AtMost(low, high) { WorseRateConvertsLess(x, Inverse(high), Inverse(low)); }
  }

  lemma NothingIsWorthNothing(p: Price)
    ensures ToQuote(0, p) == ToQuoteUp(0, p) == 0
  {
    DivUpAtMost(0, p.base, 0);
  }

  /** Paying at the position's own ratio, rounded down, keeps the ratio and leaves collateral. */
  lemma OwnRatioKept(c: Position, covers: nat)
    requires Open(c) && covers < c.debt
    ensures ToQuote(covers, Pair(c.debt, c.collateral)) < c.collateral
    ensures RatioKept(c, covers, ToQuote(covers, Pair(c.debt, c.collateral)))
  {
    var pays := ToQuote(covers, Pair(c.debt, c.collateral));
    assert pays * c.debt <= covers * c.collateral;
    MulStrict(covers, c.debt, c.collateral);
    MulCancelStrict(pays, c.collateral, c.debt);
  }

  /** A rounded-down payment that would lower the ratio means the price itself is out of reach. */
  lemma LoweringMeansPoor(c: Position, matchPrice: Price, covers: nat)
    requires Open(c) && covers < c.debt
    requires var pays := ToQuote(covers, matchPrice); pays >= c.collateral || !RatioKept(c, covers, pays)
    ensures Less(matchPrice, Pair(c.debt, c.collateral))
  {
    var pays := ToQuote(covers, matchPrice);
    if pays >= c.collateral {
      MulMono(c.collateral, pays, c.debt);
      MulStrict(covers, c.debt, c.collateral);
    }
    assert pays * matchPrice.base <= covers * matchPrice.quote;
    if matchPrice.base * c.collateral >= c.debt * matchPrice.quote {
      MulMono(pays * matchPrice.base, covers * matchPrice.quote, c.debt);
      MulMono(c.debt * matchPrice.quote, matchPrice.base * c.collateral, covers);
      Comm3(pays, matchPrice.base, c.debt);
      Comm3(covers, matchPrice.quote, c.debt);
      Comm3(covers, c.debt, matchPrice.quote);
      Comm3(covers, matchPrice.base, c.collateral);
      MulCancel(pays * c.debt, covers * c.collateral, matchPrice.base);
      assert false;
    }
  }

  lemma RoundingBounds(x: nat, p: Price)
    ensures ToQuote(x, p) <= ToQuoteUp(x, p) <= ToQuote(x, p) + 1
  {
    DivUpAtMost(x * p.quote, p.base, ToQuote(x, p) + 1);
    MulCancel(ToQuote(x, p), ToQuoteUp(x, p), p.base);
  }

  /**
   * The match.  A margin call always ends with an exchange or with the settle order
   * cancelled, the latter only when the whole settle order is worth nothing; the exchange
   * is fair at the requested prices or, when the position cannot pay those, at its own
   * ratio.  A limit of zero is the exception, and the only one: the position then pays one
   * unit of collateral for no debt, which lowers its ratio.
   */
  method MatchMarginCall(q: Request) returns (o: Outcome)
    requires q.Valid() && q.isMarginCall
    ensures !o.NothingDone?
    ensures o.SettleCancelled? ==> q.First() == q.balance < q.c.debt
    ensures o.SettleCancelled? ==> WorthNothing(q)
    ensures (o.Settled? && o.covers == 0) <==> q.limit == 0
    ensures q.limit == 0 ==> o == Settled(1, 0, 1, q.matchPrice, q.fillPrice, false) && !RatioKept(q.c, o.covers, o.callPays)
    ensures o.Settled? && q.limit > 0 ==> Fair(q, o)
    ensures o.Settled? ==> (o.matchPrice == q.matchPrice && o.fillPrice == q.fillPrice) || Capped(q, o)
    ensures o.Settled? && o.matchPrice != q.matchPrice && LimitRaisesRatio(q.c, q.matchPrice, q.limit)
            ==> q.limit == q.c.debt
    ensures o.Settled? && o.covers != q.First() ==> q.First() == q.balance && o.cull
    ensures o.Settled? && o.cull ==> o.covers < q.balance
  {
    hide ToQuote, ToQuoteUp, ToBase, ToBaseUp, AtMost, Less, RatioKept, Capped, WorthNothing, LimitRaisesRatio;
    NothingIsWorthNothing(q.matchPrice);
    if ToQuote(q.First(), q.matchPrice) == 0 {
      o := MatchTiny(q);
    } else if q.First() == q.c.debt {
      o := MatchWhole(q);
    } else if q.First() == q.limit {
      o := MatchLimit(q);
    } else {
      o := MatchSmallerSettle(q);
    }
  }

  /**
   * A settle order against a called position, with the limit computed for that position.
   * Collateral is handed out for no debt exactly when the computed limit is zero.
   */
  method MatchCalled(q: Query, balance: nat, fillPrice: Price, paysNum: nat, paysDen: nat) returns (o: Outcome)
    requires q.Valid() && q.Callable() && balance > 0 && 0 < paysNum <= paysDen
    ensures (o.Settled? && o.covers == 0) <==> q.c.targetRatio.Some? && CoversNothing(q)
    ensures o.Settled? && o.covers == 0 ==> o.callPays == o.settleReceives == 1 && !RatioKept(q.c, o.covers, o.callPays)
  {
    var limit := MaxDebtToCover(q);
    NothingIsWorthNothing(Inverse(q.rate));
    o := MatchMarginCall(Request(q.c, balance, limit, Inverse(q.rate), fillPrice, paysNum, paysDen, true));
  }

  /** It happens: under this feed a called position at exactly 3/1 pays one unit for nothing. */
  method PaysForNothing(rate: Price, balance: nat, fillPrice: Price) returns (o: Outcome)
    requires balance > 0
    ensures o.Settled? && o.covers == 0 && o.callPays == 1
  {
    var feed := Pair(999_999_999_999_996, 499_999_999_999_999);
    RoundedFeedCoversNothing(rate);
    o := MatchCalled(Query(Position(300, 100, Some(1500)), rate, feed, 1500, Scale(feed, 1500, RATIO_DENOM)), balance, fillPrice, 1, 1);
  }

  /**
   * The settle order is worth nothing at one of the prices, or the position cannot pay the
   * requested one and the order is worth nothing at what a position paying by its own ratio
   * leaves its counterparty.
   */
  ghost predicate WorthNothing(q: Request)
    requires Open(q.c) && 0 < q.paysNum && 0 < q.paysDen
  {
    || ToQuote(q.balance, q.matchPrice) == 0 || ToQuote(q.balance, q.fillPrice) == 0
    || (&& Less(q.matchPrice, Pair(q.c.debt, q.c.collateral))
        && ToQuote(q.balance, Unscale(Pair(q.c.debt, q.c.collateral), q.paysNum, q.paysDen)) == 0)
  }

  /** What is exchanged is worth less than one unit of collateral. */
  method MatchTiny(q: Request) returns (o: Outcome)
    requires q.Valid() && q.isMarginCall && ToQuote(q.First(), q.matchPrice) == 0
    ensures if q.First() == q.balance < q.c.debt then o == SettleCancelled && WorthNothing(q)
            else o == Settled(1, q.First(), 1, q.matchPrice, q.fillPrice, false)
                 && (q.limit > 0 ==> Fair(q, o))
                 && (q.limit == 0 ==> !RatioKept(q.c, 0, 1))
  {
    hide ToQuote, ToQuoteUp, AtMost, RatioKept, LimitRaisesRatio;
    if q.First() == q.balance < q.c.debt { return SettleCancelled; }
    LimitKeepsRatio(q.c, q.matchPrice, q.limit);
    SomethingForNothing(q.c);
    o := Settled(1, q.First(), 1, q.matchPrice, q.fillPrice, false);
    if q.limit > 0 {
      OneUnit(q.First(), q.matchPrice);
      OneUnit(q.First(), q.fillPrice);
      RoundingBounds(q.First(), q.matchPrice);
      HigherPriceIsCheaper(q.First(), q.matchPrice, q.fillPrice);
    }
  }

  /** The whole debt is covered, at the requested prices or for all of the collateral. */
  method MatchWhole(q: Request) returns (o: Outcome)
    requires q.Valid() && q.isMarginCall && q.First() == q.c.debt && ToQuote(q.First(), q.matchPrice) > 0
    ensures o.Settled? && o.covers == q.c.debt && !o.cull && Fair(q, o)
    ensures (o.matchPrice == q.matchPrice && o.fillPrice == q.fillPrice) || Capped(q, o)
  {
    hide ToQuote, ToQuoteUp, RatioKept, LimitRaisesRatio, Unscale, AtMost, Less;
    var c := q.c;
    var matchPrice, fillPrice := q.matchPrice, q.fillPrice;
    var callPays := ToQuoteUp(c.debt, matchPrice);
    RoundingBounds(c.debt, matchPrice);
    if callPays > c.collateral {
      callPays := c.collateral;
      TooExpensive(c, matchPrice);
      OwnPrices(c, matchPrice, q.paysNum, q.paysDen);
      matchPrice := Pair(c.debt, c.collateral);
      fillPrice := Unscale(matchPrice, q.paysNum, q.paysDen);
      WholeAtOwnRatio(c);
    }
    o := Settled(callPays, c.debt, ToQuoteUp(c.debt, fillPrice), matchPrice, fillPrice, false);
    RoundingBounds(c.debt, fillPrice);
    OneUnit(c.debt, fillPrice);
    HigherPriceIsCheaper(c.debt, matchPrice, fillPrice);
  }

  /** The settle order is the larger one, but the position is not to be covered in full. */
  method MatchLimit(q: Request) returns (o: Outcome)
    requires q.Valid() && q.isMarginCall && 0 < q.First() == q.limit < q.c.debt && ToQuote(q.limit, q.matchPrice) > 0
    ensures o.Settled? && o.covers == q.limit && !o.cull && Fair(q, o)
    ensures o.matchPrice == q.matchPrice && o.fillPrice == q.fillPrice
  {
    hide ToQuote, ToQuoteUp, AtMost, RatioKept, LimitRaisesRatio;
    o := Settled(ToQuoteUp(q.limit, q.matchPrice), q.limit, ToQuoteUp(q.limit, q.fillPrice), q.matchPrice, q.fillPrice, false);
    RoundingBounds(q.limit, q.matchPrice);
    RoundingBounds(q.limit, q.fillPrice);
    OneUnit(q.limit, q.fillPrice);
    HigherPriceIsCheaper(q.limit, q.matchPrice, q.fillPrice);
    LimitKeepsRatio(q.c, q.matchPrice, q.limit);
  }

  lemma OneUnit(x: nat, p: Price)
    requires x > 0
    ensures ToQuoteUp(x, p) > 0
  {
    DivUpAtMost(x * p.quote, p.base, 0);
    assert x * p.quote > 0;
  }

  lemma TooExpensive(c: Position, matchPrice: Price)
    requires Open(c) && ToQuoteUp(c.debt, matchPrice) > c.collateral
    ensures Less(matchPrice, Pair(c.debt, c.collateral))
  {
    DivUpAtMost(c.debt * matchPrice.quote, matchPrice.base, c.collateral);
  }

  lemma OwnRatioFull(c: Position, fillPrice: Price)
    requires Open(c) && AtMost(Pair(c.debt, c.collateral), fillPrice)
    ensures ToQuoteUp(c.debt, fillPrice) <= c.collateral
  {
    WholeAtOwnRatio(c);
    WorseRateConvertsLess(c.debt, Inverse(fillPrice), Inverse(Pair(c.debt, c.collateral)));
  }

  lemma WholeAtOwnRatio(c: Position)
    requires Open(c)
    ensures var own := Pair(c.debt, c.collateral);
            ToQuote(c.debt, own) == ToQuoteUp(c.debt, own) == c.collateral
  {
    DivDownAtLeast(c.debt * c.collateral, c.debt, c.collateral);
    DivUpAtMost(c.debt * c.collateral, c.debt, c.collateral);
    RoundingBounds(c.debt, Pair(c.debt, c.collateral));
  }

  /** The settle order is the smaller side of a margin call. */
  method MatchSmallerSettle(q: Request) returns (o: Outcome)
    requires q.Valid() && q.isMarginCall && q.First() == q.balance < q.c.debt && q.balance != q.limit
    ensures o.SettleCancelled? || o.Settled?
    ensures o.SettleCancelled? ==> WorthNothing(q)
    ensures o.Settled? ==> Fair(q, o)
    ensures o.Settled? && !(o.matchPrice == q.matchPrice && o.fillPrice == q.fillPrice)
            ==> Capped(q, o) && (LimitRaisesRatio(q.c, q.matchPrice, q.limit) ==> q.limit == q.c.debt)
    ensures o.Settled? ==> o.cull == (o.covers != q.balance)
  {
    hide ToQuote, ToQuoteUp, ToBaseUp, ToBase, Unscale, Fair, AtMost, Less, RatioKept, LimitRaisesRatio;
    var c := q.c;
    var matchPrice, fillPrice := q.matchPrice, q.fillPrice;
    if ToQuote(q.balance, fillPrice) == 0 { return SettleCancelled; }
    var callReceives := ToBaseUp(ToQuote(q.balance, fillPrice), fillPrice);
    var callPays := ToQuote(callReceives, matchPrice);
    SmallerSettle(q.balance, matchPrice, fillPrice);
    var kept := callPays < c.collateral && AtMost(Collateralization(c), Pair(c.collateral - callPays, c.debt - callReceives));
    if callPays < c.collateral { RatioKeptMeaning(c, callReceives, callPays); }
    if !kept {
      LoweringMeansPoor(c, matchPrice, callReceives);
      OwnPrices(c, matchPrice, q.paysNum, q.paysDen);
      CannotPayMeansAll(c, matchPrice, q.limit);
      matchPrice := Pair(c.debt, c.collateral);
      fillPrice := Unscale(matchPrice, q.paysNum, q.paysDen);
      if ToQuote(q.balance, fillPrice) == 0 { return SettleCancelled; }
    }
    o := SettleAt(q, matchPrice, fillPrice);
  }

  /** The prices of a position that cannot pay the requested one: its own ratio, and above that the price its counterparty gets. */
  lemma OwnPrices(c: Position, matchPrice: Price, paysNum: nat, paysDen: nat)
    requires Open(c) && Less(matchPrice, Pair(c.debt, c.collateral)) && 0 < paysNum <= paysDen
    ensures var own := Pair(c.debt, c.collateral);
            AtMost(matchPrice, own) && AtMost(own, Unscale(own, paysNum, paysDen))
  {
    ScaleKeepsSide(Pair(c.debt, c.collateral), paysDen, paysNum);
  }

  lemma CannotPayMeansAll(c: Position, matchPrice: Price, limit: nat)
    requires Open(c) && Less(matchPrice, Pair(c.debt, c.collateral))
    ensures LimitRaisesRatio(c, matchPrice, limit) ==> limit == c.debt
  {
  }

  /** What the smaller settle order exchanges at prices at which the position keeps its ratio. */
  method SettleAt(q: Request, matchPrice: Price, fillPrice: Price) returns (o: Outcome)
    requires q.Valid() && q.First() == q.balance < q.c.debt && ToQuote(q.balance, fillPrice) > 0
    requires var covers := ToBaseUp(ToQuote(q.balance, fillPrice), fillPrice);
             matchPrice == Pair(q.c.debt, q.c.collateral)
             || (ToQuote(covers, matchPrice) < q.c.collateral && RatioKept(q.c, covers, ToQuote(covers, matchPrice)))
    ensures o.Settled? && o.matchPrice == matchPrice && o.fillPrice == fillPrice && Fair(q, o) && o.cull == (o.covers != q.balance)
  {
    hide ToQuote, ToQuoteUp, ToBaseUp, ToBase, AtMost, RatioKept, LimitRaisesRatio;
    var receives := ToQuote(q.balance, fillPrice);
    var covers := ToBaseUp(receives, fillPrice);
    SmallerSettle(q.balance, matchPrice, fillPrice);
    if matchPrice == Pair(q.c.debt, q.c.collateral) { OwnRatioKept(q.c, covers); }
    RoundingBounds(covers, matchPrice);
    RoundingBounds(covers, fillPrice);
    o := Settled(ToQuote(covers, matchPrice), covers, receives, matchPrice, fillPrice, covers != q.balance);
  }

  /**
   * A settlement that is not a margin call pays the settlement price and no fee.
   * A position that can afford that price keeps its ratio.
   */
  method MatchMaturedSettlement(q: Request) returns (o: Outcome)
    requires q.Valid() && !q.isMarginCall && q.limit > 0
    ensures o.SettleCancelled? ==> q.First() == q.balance < q.c.debt && ToQuote(q.balance, q.matchPrice) == 0
    ensures o.NothingDone? ==> q.First() == q.limit < q.balance && ToQuote(q.limit, q.matchPrice) == 0
    ensures o.Settled? ==> o.settleReceives == o.callPays && 0 < o.covers <= q.First() && 0 < o.callPays
    ensures o.Settled? ==> ToQuote(o.covers, q.matchPrice) <= o.callPays <= ToQuoteUp(o.covers, q.matchPrice)
    ensures o.Settled? && AtMost(Pair(q.c.debt, q.c.collateral), q.matchPrice)
            ==> o.callPays <= q.c.collateral && (o.covers < q.c.debt ==> RatioKept(q.c, o.covers, o.callPays))
    ensures o.Settled? && o.covers < q.First() ==> ToQuote(q.First() - o.covers, q.matchPrice) == 0
    ensures o.Settled? ==> o.cull == (q.First() == q.balance && o.covers != q.balance)
  {
    var c, matchPrice := q.c, q.matchPrice;
    var callReceives := q.First();
    var callPays := ToQuote(callReceives, matchPrice);
    RoundingBounds(callReceives, matchPrice);
    OneUnit(callReceives, matchPrice);
    if callPays == 0 {
      if callReceives == c.debt {
        return Settled(1, callReceives, 1, matchPrice, q.fillPrice, false);
      } else if callReceives == q.balance {
        return SettleCancelled;
      }
      return NothingDone;
    }
    if callReceives == c.debt {
      callPays := ToQuoteUp(callReceives, matchPrice);
      if AtMost(Pair(c.debt, c.collateral), matchPrice) {
        DivUpAtMost(c.debt * matchPrice.quote, matchPrice.base, c.collateral);
      }
      return Settled(callPays, callReceives, callPays, matchPrice, q.fillPrice, false);
    }
    var settlePays := callReceives;
    ChangeBuysNothing(callReceives, Inverse(matchPrice));
    callReceives := ToBaseUp(callPays, matchPrice);
    RoundUpIsLeast(callReceives, callPays, matchPrice);
    ConvertMono(callReceives, settlePays, matchPrice);
    RoundingBounds(callReceives, matchPrice);
    if AtMost(Pair(c.debt, c.collateral), matchPrice) {
      Affordable(c, matchPrice, callReceives);
    }
    o := Settled(callPays, callReceives, callPays, matchPrice, q.fillPrice,
                 settlePays == q.balance && callReceives != q.balance);
  }

  lemma Affordable(c: Position, matchPrice: Price, covers: nat)
    requires Open(c) && covers < c.debt && AtMost(Pair(c.debt, c.collateral), matchPrice)
    ensures ToQuote(covers, matchPrice) < c.collateral && RatioKept(c, covers, ToQuote(covers, matchPrice))
  {
    var own := Pair(c.debt, c.collateral);
    WorseRateConvertsLess(covers, Inverse(matchPrice), Inverse(own));
    OwnRatioKept(c, covers);
    MulMono(ToQuote(covers, matchPrice), ToQuote(covers, own), c.debt);
  }
}
