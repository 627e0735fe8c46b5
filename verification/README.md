# BitShares Core: matching, settlement and protocol ledgers

This project models the parts of BitShares Core in which money changes hands, and a few
self-contained protocol pieces around them, and proves what every operation keeps.

The centre is the market of one collateralised asset (`Ledger`, `Market`, `Settlement`,
`Revival`, `MarginCalls`, `Taking`, `SettleTaking`, `Maturity`, `Runs`, `RoundingRuns`): limit orders, margin positions, force
settlements, individual and global settlement, and revival. A `Ledger` object holds every
pot of money. Its `Net` of an asset is everything held anywhere minus the recorded supply.
`Market.Valid` says that supply is debt (or is covered by the global settlement fund), that
settled debt is always backed by its fund, and that the record of core on the books is exact.
`Runs.Run` shows that any sequence of operations keeps all this, creates or loses nothing, and
lowers nobody's balance but by an operation of their own; `Runs.RunFromGenesis` that all that is
held of an asset is then exactly its supply.

Below it lie the integer arithmetic with its rounding (`Prices`, `PriceScale`, `ScaleError`, `Quotes`,
`SettleMatch`, `MaxDebt`) and a plain limit order book with price-time order (`OrderBook`).
Beside it stand the credit ledger (`Repayments`, `Credits`), the budget (`Budget`), fork
switching (`Blocks`, `ForkSwitch`, `ForgottenBlock`), the block store (`BlockStore`), the sync protocol
(`Synopsis`), the secondary indexes (`Indexes`) and amounts as text (`AmountText`, `AmountSigns`).

All hard forks are taken as passed. A price is a pair of positive integers. Amounts are
unbounded integers: an overflow of 64 bits aborts a transaction in the original and is not
modelled. Clocks, authorisation, network and hashes are parameters.

## Findings

Where a property one would expect does not hold, the model follows the code and states when
it does hold.

- The amount of debt to cover can be zero for a called position (`MaxDebt.RoundedFeedCoversNothing`),
  exactly when `MaxDebt.CoversNothing` holds. With a limit order a margin call then makes no
  progress; with a settle order it pays one unit of collateral for no debt
  (`SettleMatch.MatchCalled`, `SettleMatch.PaysForNothing`). The model stops with the status
  `Stuck`, only there, and always where it is so from the start (`MarginCalls.CheckCallOrders`;
  `RoundingRuns.StuckExample`). It cannot happen when the target is represented exactly (`MaxDebt.ExactFeedCoversSomething`).
- Without settlement the feed is capped so that no position is a black swan. Where the squeeze price
  is exact this succeeds if and only if the cap was not rounded down (`MarginCalls.CappedFeedHasNoSwan`).
  Where it was, the market can be globally settled although its response is not to settle
  (`RoundingRuns.SettledAnyway`).
- Pay to refund workers lowers the supply directly, so the supply change recorded for a budget
  exceeds the actual one by exactly that pay (`Budget.Treasury.ProcessBudget`, `Budget.RefundExample`).
- The defensive check at the end of an offer update refuses an emptied offer unless funds are
  added (`Credits.CreditLedger.UpdateOffer`, `Credits.EmptiedOfferExample`); the one for a
  deadline in the future refuses every loan from an offer that lends for no time
  (`Credits.CreditLedger.Accept`, `Credits.NoTimeExample`). No other defensive check of the
  credit ledger can fail.
- Reviving by the settlement fund cannot proceed exactly while the issuer has a bid
  (`Revival.ReviveByFund`, `Revival.IssuerBidExample`).
- After a fork failed, a block kept on top of one of its blocks leads nowhere. Once such a block
  is the highest, the node follows no chain but one that is higher still: blocks up to its height
  are refused even if they extend the current chain (`Unlinked` and `Extended` in
  `ForkSwitch.Node.PushBlock`, with their exact conditions; `ForgottenBlock.ForgottenExample`).
- An amount text may contain its sign anywhere, and then loses its first character instead. What
  is read is given by `AmountSigns.MisplacedSign`. If the sign follows a first digit, the check of
  the share limit is passed by amounts above it (`AmountSigns.LimitIsPassed`), and only then
  (`AmountSigns.WithinLimit`). A sign first is read as it should be, but not directly before a point
  (`AmountSigns.ReadsWhatItSays`).

## Model

| member | source | states |
|---|---|---|
| Runs.Run | libraries/chain/db_debug.cpp:56-98 | After any sequence of market operations no asset has appeared or been lost, the recorded supply is the debt of all positions plus the settled pool (or is covered by the global fund at its price), every record of core on the books is exact, no dust order is left if none aborts, and no balance has fallen except by an operation of its owner |
| Runs.RunFromGenesis | libraries/chain/db_debug.cpp:56-98 | In every state reached from a start in which balances add up to the supplies, everything held of an asset anywhere is exactly its recorded supply |
| Runs.Genesis | libraries/chain/db_debug.cpp:56-98 | Such a start satisfies all invariants |
| Runs.Perform | libraries/chain/db_market.cpp:533-641 | Each single operation keeps all of these; only the account that makes it can end with a lower balance |
| Runs.DoNewLimitOrder | libraries/chain/market_evaluator.cpp:114-148 | A new order, placed and then matched with the book and with margin calls, or refused, keeps all invariants and takes only from its seller |
| Runs.DoChangePosition | libraries/chain/market_evaluator.cpp:507-800 | An update keeps all invariants and takes only from its owner; a position left behind was improved by the update or is above the initial collateral ratio |
| Runs.AfterUpdate | libraries/chain/market_evaluator.cpp:684-796 | Without a margin call the position is still there, so that internal check never fails; no black swan follows; what is accepted can pay the squeeze price and ends above the initial ratio, unless it was improved |
| Runs.AfterClosing | libraries/chain/market_evaluator.cpp:619-639 | What follows the closing of a position keeps all invariants, lowers no balance, opens no position and changes no target ratio |
| Runs.DoSettle | libraries/chain/asset_evaluator.cpp:1359-1412 | Redeeming from the global fund, the individual fund and by a settle order for the rest keeps all invariants and takes only from the settler |
| Runs.SettleFromPool | libraries/chain/asset_evaluator.cpp:1301-1357 | Redemption from the individual fund, the uncapping of the price and the margin calls it leads to keep all invariants; it never takes more than was offered |
| Runs.SettleRest | libraries/chain/asset_evaluator.cpp:1389-1410 | A settle order for the rest, matched at once with margin calls, keeps all invariants and takes only from the settler |
| Runs.DoSettleGlobally | libraries/chain/asset_evaluator.cpp:1109-1142 | Settlement by the issuer, at a price the least collateralized position can pay, closes every position, keeps all invariants and lowers no balance |
| Runs.DoSettleMatured | libraries/chain/db_update.cpp:348-527 | Processing due settle orders, or returning all of them in a settled market, keeps all invariants and lowers no balance |
| Runs.RefreshFeed | libraries/chain/db_update.cpp:270-317 | A new feed, capped where the market has to, and the repricing of settled debt keep all invariants and touch no balance |
| Prices.RoundUpIsLeast | libraries/protocol/asset.cpp:58-98 | Rounding up is adjoint to rounding down: the rounded-up cost of r is the least amount that converts back, rounded down, to at least r |
| Prices.ChangeBuysNothing | libraries/protocol/asset.cpp:58-98 | After paying exactly for what an amount buys, the change buys nothing |
| Prices.WorseRateConvertsLess | libraries/protocol/asset.cpp:45-98 | Conversion is monotone in the rate, in both rounding directions |
| Prices.ConvertMono | libraries/protocol/asset.cpp:58-75 | Conversion is monotone in the amount |
| PriceScale.ScaleKeepsSide | libraries/protocol/asset.cpp:112-186 | Price times ratio never lands on the wrong side of the price, whatever shrinking and capping did to it |
| PriceScale.ScaleIsExactInRange | libraries/protocol/asset.cpp:112-146 | A product that fits is represented exactly |
| PriceScale.Multiply | libraries/protocol/asset.cpp:112-186 | The shrinking loop computes the specified product of price and ratio |
| PriceScale.ApproximateIsNearest | libraries/protocol/asset.cpp:145-172 | Of the two approximations, halved and divided, neither is nearer to the exact value than the one taken |
| ScaleError.ApproximateError | libraries/protocol/asset.cpp:128-176 | A product that does not fit is off by at most one part in 2^18, or is beyond an end of the range, which is then used |
| ScaleError.ShrinkError | libraries/protocol/asset.cpp:128-147 | Halving a fraction until it fits raises neither its value nor its inverse by more than four parts in 1.9 billion, if both its parts are that large and it is within a factor 2^19 of one |
| ScaleError.RoundedIsClose | libraries/protocol/asset.cpp:148-164 | Far from one, the whole number instead of the fraction is off by at most one part in 2^18 |
| ScaleError.NearerIsDistance | libraries/protocol/asset.cpp:166-175 | The comparison of the two candidates over common denominators is that of their distances from the exact value |
| ScaleError.LargerDivisorScalesLower | libraries/protocol/asset.cpp:112-186 | Of two ratios of 16 bits with the same numerator, the larger divisor never gives the higher price, however the two products are rounded |
| PriceScale.ScaleBackExactly | libraries/protocol/asset.cpp:112-186 | A price that scales down exactly is then at least another one if and only if it is at least the exact product of that |
| Feeds.Feed.CallNumerator | libraries/protocol/asset.cpp:314-322 | Squeeze ratio less margin call fee lies between one and the squeeze ratio |
| Feeds.Feed.FeeIsNotNegative | libraries/protocol/asset.cpp:300-342 | The squeeze price is not above the margin call order price, for every feed and however the two are rounded, so the margin call fee is never negative |
| Feeds.DerivedPriceIsHonoured | libraries/chain/db_update.cpp:178-223 | At the capped price, if no rounding happens, the least collateralized position can pay the squeeze price and the individual fund can pay the margin call order price |
| PriceScale.ScaleBack | libraries/protocol/asset.cpp:112-184 | Scaling a price up and scaling a price no lower down again, exactly, gives at least the original |
| Feeds.Refreshed | libraries/chain/db_update.cpp:270-309 | A feed update keeps the ratios and the median |
| MaxDebt.MaxDebtToCover | libraries/chain/market_object.cpp:61-307 | At most the debt; zero exactly outside call territory or when CoversNothing holds; a partial amount lifts the position above target at the rounded-up price; the whole debt when the ratio is no better than the rate paid |
| MaxDebt.CoverWithTarget | libraries/chain/market_object.cpp:128-307 | The estimates, the bisection and the forward search together find such an amount |
| MaxDebt.SearchBetween | libraries/chain/market_object.cpp:185-269 | Bisection returns a good cover or gives up only if its high end is not good; it terminates |
| MaxDebt.Middle | libraries/chain/market_object.cpp:195-246 | The next candidate is the maximum or strictly inside, with a stable pay and cover pair |
| MaxDebt.SearchForward | libraries/chain/market_object.cpp:272-305 | The search in growing steps ends with a good cover or the whole debt |
| MaxDebt.PoorRateCoversAll | libraries/chain/market_object.cpp:117-130 | The closed formula covers everything if the position is no better than the rate it pays |
| MaxDebt.ExactFeedCoversSomething | libraries/chain/market_object.cpp:89-130 | With an exactly represented target a called position always covers something |
| MaxDebt.RoundedFeedCoversNothing | libraries/chain/market_object.cpp:89-159 | A concrete called position for which nothing is covered because the target rounds |
| LimitQuotes.QuoteLimitsSound | libraries/chain/db_market.cpp:1054-1129 | Either the taker is too small, or both sides exchange positive amounts within their sizes at the maker price, and one of them is used up |
| LimitQuotes.CostIsTight | libraries/chain/db_market.cpp:1087-1112 | A rounded-up cost exceeds the exact one by less than one unit |
| SettledDebt.BackedMeansRatio | libraries/chain/db_market.cpp:363-407 | Backing of the order is exactly debt times price not exceeding the fund |
| SettledDebt.PartialFillKeepsBacked | libraries/chain/db_market.cpp:1181-1240 | After a partial fill the fund still backs the remaining settled debt and the order fits the fund |
| SettledDebt.FullFillIsCovered | libraries/chain/db_market.cpp:1168-1209 | A full fill never needs more than the fund, so the collateral fee is not negative |
| SettledDebt.Reprice | libraries/chain/db_update.cpp:226-268 | Repricing at a new feed yields a backed order, selling the whole fund if the price would need more |
| SettledDebt.WholeFund | libraries/chain/db_market.cpp:391-407 | The order that sells the whole fund at its own ratio is backed |
| SettleMatch.MatchMarginCall | libraries/chain/db_market.cpp:1473-1642 | A settle order meeting a margin call is exchanged, or cancelled where it is worth nothing at a price it would get; the exchange is within both orders and at the requested prices up to rounding, or at the own ratio of a position that cannot pay those; the fee is not negative if the prices are in order; collateral is paid for no debt exactly when the limit is zero |
| SettleMatch.MatchCalled | libraries/chain/db_market.cpp:2471-2493 | With the limit computed for the position, one unit is paid for no debt, lowering the ratio, exactly when the computed limit is zero |
| SettleMatch.PaysForNothing | libraries/chain/db_market.cpp:1516-1532 | A feed and a position for which that happens |
| SettleMatch.MatchSmallerSettle | libraries/chain/db_market.cpp:1562-1613 | As the smaller side the settle order never lowers the collateral ratio of the position, and is cancelled only where it is worth nothing at a price it would get |
| SettleMatch.MatchMaturedSettlement | libraries/chain/db_market.cpp:1487-1657 | The amounts of a settlement at maturity: the settlement price up to rounding and no fee; a position that can pay the price keeps its ratio |
| Maturity.ClearMatured | libraries/chain/db_update.cpp:348-527 | Due orders are processed oldest first: no more than the volume limit is settled, every unit retires a unit of debt, no other order is touched, and it ends with no order due, the volume used up or the rest of it worth nothing; it cannot fail if every position can pay or none is called, nor if there is no price, and then every due order is returned |
| Maturity.SettleMature | libraries/chain/db_update.cpp:469-519 | One order is matched with the least collateralized positions until it, or the volume, is used up |
| Maturity.MatchMature | libraries/chain/db_update.cpp:489-500 | One match at maturity keeps all invariants; it fails only for a position that cannot pay the price, and keeps all others able to |
| Maturity.NoneCalledCanPay | libraries/chain/db_update.cpp:450-500 | A position that is not called can pay the price of a matured order |
| Maturity.MaxVolume | libraries/chain/asset_object.cpp:33-45 | The volume limit never exceeds supply and settled volume together |
| Maturity.CancelAll | libraries/chain/db_update.cpp:408-413 | Once globally settled, all settle orders are returned |
| SettleMatch.RatioKeptMeaning | libraries/chain/db_market.cpp:1587-1596 | The check by cross-multiplication says exactly that the new ratio is not below the old one |
| SettleMatch.LoweringMeansPoor | libraries/chain/db_market.cpp:1587-1601 | A payment that would lower the ratio occurs only if the position is worse than the match price |
| SettleMatch.OwnRatioKept | libraries/chain/db_market.cpp:1598-1602 | Repricing at the own ratio keeps the ratio and leaves collateral |
| SettleMatch.MaxDebtRaisesRatio | libraries/chain/market_object.cpp:61-307 | The amount computed by the target search satisfies what the matching assumes of its limit |
| OrderBook.Book.ApplyOrder | libraries/chain/db_market.cpp:741-940 | From an uncrossed dust-free sorted book, a new order ends in such a book; makers leave as a prefix of the other side, in pairs of mirrored fills; the fills and refunds account for all that left the new order and every maker it met |
| OrderBook.Book.ApplyFront | libraries/chain/db_market.cpp:913-940 | The same for an order at the front of its side |
| OrderBook.Book.MatchLoop | libraries/chain/db_market.cpp:913-920 | The loop stops with the taker gone, too small, or with no crossing maker left, and with a log that accounts for every order so far |
| OrderBook.Book.Match | libraries/chain/db_market.cpp:1054-1129 | Every match fills at least one of the two and both receive something |
| OrderBook.Book.FillFront | libraries/chain/db_market.cpp:1784-1903 | A fill reduces the order or removes it, refunding dust |
| OrderBook.Book.MaybeCull | libraries/chain/db_market.cpp:646-669 | An order that would receive nothing is removed and refunded |
| OrderBook.BehindDoesNotCross | libraries/chain/db_market.cpp:747-755 | The early return is sound: an order behind another one crosses nothing |
| OrderBook.CountCrossing | libraries/chain/db_market.cpp:758-760 | The orders that cross form a prefix of the sorted side |
| OrderBook.AheadCrossesMore | libraries/chain/db_market.cpp:748-760 | What crosses an order crosses every order ahead of it |
| OrderBook.RestIsValid | libraries/chain/db_market.cpp:913-940 | What remains is sorted, dust-free and uncrossed |
| Ledger.Ledger.AdjustBalance | libraries/chain/db_balance.cpp:54-111 | A balance changes by the amount and nothing else does |
| Ledger.Ledger.DepositVesting | libraries/chain/db_balance.cpp:127-155 | A vesting deposit adds to the holdings |
| Ledger.Ledger.MarketFee | libraries/chain/db_market.cpp:2557-2590 | The fee is at most the amount and at most the maximum fee |
| Ledger.Ledger.PayMarketFees | libraries/chain/db_market.cpp:2592-2693 | The split between network, referrer, registrar and issuer adds up to the fee |
| Ledger.Ledger.PayOrder | libraries/chain/db_market.cpp:2545-2555 | Paying an order keeps the record of core on the books exact |
| Ledger.Ledger.FillLimitOrder | libraries/chain/db_market.cpp:1784-1903 | A fill conserves every asset, credits the seller with at least the proceeds less the market fee, changes no other balance, and leaves exactly the specified order |
| Ledger.Ledger.CancelLimitOrder | libraries/chain/db_market.cpp:533-641 | A cancellation conserves every asset, credits the seller with at least what was for sale, and changes no other balance |
| Ledger.Ledger.RefundDeferredFees | libraries/chain/db_market.cpp:544-621 | Deferred fees are refunded or collected without loss |
| Ledger.Ledger.ChargeCancelFee | libraries/chain/db_market.cpp:549-588 | The cancellation fee is capped by the deferred fee, and the matching part of the paid fee never exceeds it |
| Ledger.Ledger.CollectDeferredFees | libraries/chain/db_market.cpp:1814-1873 | Deferred fees become fees and fee pool without loss |
| Ledger.Ledger.MaybeCullSmallOrder | libraries/chain/db_market.cpp:646-669 | Culling happens exactly for dust |
| Ledger.Ledger.FillCallOrder | libraries/chain/db_market.cpp:1915-1986 | Collateral, debt, supply and fees move together; the position closes exactly when its debt is covered |
| Ledger.Ledger.FillSettleOrder | libraries/chain/db_market.cpp:2009-2059 | A settle order is paid less its fees; the rest stays or is returned |
| Ledger.Ledger.CancelSettleOrder | libraries/chain/db_market.cpp:524-531 | A settle order is returned in full |
| Ledger.Ledger.CancelBid | libraries/chain/db_market.cpp:477-490 | A bid is returned in full |
| Ledger.Ledger.ExecuteBid | libraries/chain/db_market.cpp:492-522 | A bid becomes a position with its collateral and its share of the fund |
| Ledger.Ledger.SwapFills | libraries/chain/db_market.cpp:1114-1128 | Both fills of a trade conserve every asset, each seller is credited with what the other paid less the market fee, and no balance falls |
| Ledger.Ledger.CoverWithLimit | libraries/chain/db_market.cpp:1414-1427 | A limit order covering a position conserves every asset, credits its seller, keeps debt equal to supply, and collects exactly the difference as margin call fee |
| Ledger.Ledger.CoverWithSettle | libraries/chain/db_market.cpp:1642-1655 | The same for a settle order, whose owner is credited with the proceeds less fees |
| Ledger.Ledger.SellToPool | libraries/chain/db_market.cpp:1176-1240 | A trade with the settled pool conserves every asset, credits the seller, and keeps debt equal to supply |
| Ledger.Ledger.ChangePosition | libraries/chain/market_evaluator.cpp:592-676 | Borrowing and repaying exchange exactly collateral for debt in the owner balances, move no other balance, and keep supply equal to debt |
| Ledger.Ledger.CloseCall | libraries/chain/market_evaluator.cpp:619-639 | Closing a position without debt returns its collateral |
| Market.PlaceLimitOrder | libraries/chain/market_evaluator.cpp:39-134 | Placing an order keeps all invariants; exactly the amount for sale and the fee leave the seller balances, and the fee is deferred |
| Market.UpdatePosition | libraries/chain/market_evaluator.cpp:507-676 | Opening, changing and closing a position keeps all invariants, exchanges exactly collateral for debt with its owner, and changes supply by the debt |
| Market.PlaceSettleOrder | libraries/chain/asset_evaluator.cpp:1393-1402 | A settle order holds exactly what left its owner balance |
| Market.PlaceBid | libraries/chain/market_evaluator.cpp:799-881 | A new bid replaces the old one, covering nothing withdraws it; exactly the difference in collateral moves |
| Market.MatchLimits | libraries/chain/db_market.cpp:1054-1129 | Trading two limit orders keeps all invariants and credits both sellers; one order leaves, or the taker is dust |
| Market.QuoteCallSound | libraries/chain/db_market.cpp:1371-1415 | The position pays at least what the limit order receives, within both sizes, and a smaller limit order is left as dust |
| Market.FillLimitAndCall | libraries/chain/db_market.cpp:1409-1427 | Executing such a match keeps all invariants, credits the seller, and lowers total debt by exactly the amount covered |
| Market.FillSettleAndCall | libraries/chain/db_market.cpp:1642-1655 | The same for a settle order |
| Settlement.IndividuallySettle | libraries/chain/db_market.cpp:340-420 | Settling a position into the fund or order keeps supply equal to debt and the order backed |
| Settlement.FundReceives | libraries/chain/db_market.cpp:349-356 | The fund receives no more than the collateral |
| Settlement.UpdateDebtOrder | libraries/chain/db_update.cpp:226-268 | The order is repriced and still backed |
| Settlement.TradeWithPool | libraries/chain/db_market.cpp:1132-1244 | A trade with the settled pool keeps it backed and takes exactly what is paid out and charged |
| Settlement.MatchLimitWithDebtOrder | libraries/chain/db_market.cpp:1132-1244 | Both unexpected branches are unreachable: one side is used up and all invariants hold |
| Settlement.MatchDebtOrderWithLimit | libraries/chain/db_market.cpp:1248-1338 | The same with the limit order as maker |
| Settlement.PoolCoversTrade | libraries/chain/db_market.cpp:1150-1209 | What the pool gives up is within the fund and at least what the limit order receives |
| Settlement.GloballySettle | libraries/chain/db_market.cpp:221-338 | All positions are closed and supply is unchanged; the fund is exactly the individual fund plus the share of each position, each owner gets back the rest, fees grow by the difference, and supply over fund becomes the price |
| Settlement.CloseAllPositions | libraries/chain/db_market.cpp:270-318 | Each position pays its share, which goes to the fund and to fees, and its owner gets the rest |
| Settlement.SwanShare | libraries/chain/db_market.cpp:293-314 | A position pays at most its collateral and the fund gets a positive part of that |
| Settlement.RedeemKeepsSolvent | libraries/chain/asset_evaluator.cpp:1222-1299 | Over any redemption the fund still covers the supply at the price, nobody pays in too much, and the last redeemer gets everything |
| Settlement.RedeemFromSwanFund | libraries/chain/asset_evaluator.cpp:1222-1299 | A redemption from the global fund swaps exactly debt asset for proceeds in one account and keeps all invariants, so the sufficiency check never fails |
| Settlement.RedeemFromPool | libraries/chain/asset_evaluator.cpp:1301-1357 | A redemption from the individual fund swaps exactly debt asset for proceeds in one account and never lowers the ratio of fund to debt |
| Settlement.PoolRatioKept | libraries/chain/asset_evaluator.cpp:1301-1324 | The rounding of a redemption favours the fund |
| Settlement.CollateralFee | libraries/chain/asset_evaluator.cpp:1196-1219 | With the fee taken off, a redeemer gets no more than at the margin call order price, and exactly that if there is a fee |
| Revival.ProcessBids | libraries/chain/db_maint.cpp:827-893 | The market is revived exactly when there is a feed and the supply is zero or some number of the best bids are all acceptable and cover it; then every bid before the last gets its full debt, the last gets the rest, debts add up to the supply and collateral to the fund and what the bids brought |
| Revival.CountNeeded | libraries/chain/db_maint.cpp:848-865 | The first pass succeeds exactly when some number of the best bids suffices, and counts them |
| Revival.SharesAreCovered | libraries/chain/db_maint.cpp:868-889 | No prefix of shares exceeds the fund |
| Revival.LastIsNoWorse | libraries/chain/db_maint.cpp:880-884 | The last bid is collateralized at least as well as when it was accepted |
| Revival.PlanStep | libraries/chain/db_maint.cpp:871-888 | Each step hands out no more than is left and only the last reaches it |
| Revival.PositionsDebt | libraries/chain/db_maint.cpp:871-890 | The debts of the new positions add up to the supply |
| Revival.PositionsCollateral | libraries/chain/db_maint.cpp:871-890 | The collateral of the new positions adds up to the fund and what the bids brought |
| Revival.ExecuteBids | libraries/chain/db_maint.cpp:867-890 | The second pass turns the needed bids into exactly the planned positions and hands out the whole fund |
| Revival.CancelBidsAndRevive | libraries/chain/db_market.cpp:450-475 | Remaining bids are returned and the settlement ends |
| Revival.ReviveByFund | libraries/chain/db_market.cpp:422-448 | The issuer takes over supply and fund, exactly unless they have a bid of their own |
| Revival.IssuerBidExample | libraries/chain/db_market.cpp:422-448 | A settled market in which the issuer bids and the fund can then not revive it |
| MarginCalls.CheckCallOrders | libraries/chain/db_market.cpp:2079-2432 | Terminates, keeps all invariants, lowers no balance, and ends with the market quiet: globally settled, nobody called, or no settle order left (unless skipped) and the best limit order below the call order price or not payable. It is rejected only for a forbidden black swan that is there. It is stuck only where nothing of a least collateralized position is to be covered at the price of the best crossing limit order, or at the squeeze price with a settle order left; and it is stuck where that is so from the start, and settles globally where a black swan is there from the start |
| MarginCalls.RepeatPasses | libraries/chain/db_market.cpp:2188-2429 | Each pass ends the loop or strictly lowers total debt, then the number of settle orders; the price it matches at is the call order price of the feed, or of one that was not capped; it gets stuck from the start where a pass does |
| MarginCalls.CallPass | libraries/chain/db_market.cpp:2188-2429 | One pass: black swans first, then the least collateralized position; it is blocked only if the best limit order cannot be matched, stuck only where nothing is to be covered at the price of that order or at the squeeze price, and always where this is so for all least collateralized positions and there is no black swan |
| MarginCalls.CheckForBlackSwan | libraries/chain/db_market.cpp:50-213 | After the check every position can pay the highest expected price, unless the market was settled; where they could before, nothing changes, and where one could not and the response is not individual settlement, the market is globally settled |
| MarginCalls.SettleSwans | libraries/chain/db_market.cpp:109-212 | Positions that cannot pay are settled one by one until none is left |
| MarginCalls.MatchWithLimit | libraries/chain/db_market.cpp:2222-2396 | A called position meets the best limit order at that order price; both end in a valid state; nothing is covered exactly where the limit computed at the price the position would pay is zero |
| MarginCalls.MatchForceSettlements | libraries/chain/db_market.cpp:2434-2502 | Ends with one match or with every settle order gone; gets stuck only where nothing of a least collateralized position is to be covered at the squeeze price, and where that is so for all of them |
| MarginCalls.CheckSettledDebtOrder | libraries/chain/db_market.cpp:2504-2543 | The settled debt ends meeting no limit order |
| MarginCalls.UpdateCurrentFeed | libraries/chain/db_update.cpp:270-309 | The current price is re-derived from median, least position and pool |
| MarginCalls.CoverLimit | libraries/chain/db_market.cpp:2258-2266 | The limit is affordable for the position; it is zero exactly where MaxDebt.CoversNothing holds, never for an exact target, and for such a target it raises the ratio |
| MarginCalls.OnlyRounding | libraries/chain/db_market.cpp:2277-2315 | A position that passed the black swan check but cannot pay the best order exists only through rounding |
| MarginCalls.StuckIsInexact | libraries/chain/db_market.cpp:2258-2266 | Margin calls are stuck only where the target of a position is not represented exactly |
| MarginCalls.CappedFeedHasNoSwan | libraries/chain/db_market.cpp:111-189 | Where the squeeze price is not rounded, all positions can pay it if and only if the cap was not rounded down, and then no black swan is found, so a market without settlement is not settled |
| MarginCalls.UpdatedFeedReaches | libraries/chain/db_update.cpp:193-206 | An updated feed without settlement is capped high enough for every position where the cap is not rounded |
| RoundingRuns.StuckExample | libraries/chain/db_market.cpp:2188-2429 | A market on which margin calls get stuck though a limit order meets them and the position could pay it |
| RoundingRuns.CapIsRoundedDown | libraries/chain/db_update.cpp:196-204 | A position for which the cap is rounded down and the squeeze price ends below its ratio |
| RoundingRuns.SettledAnyway | libraries/chain/db_market.cpp:176-206 | On that market, whose response is not to settle, the feed is updated and the market is then globally settled |
| Finders.LeastExists | libraries/chain/db_getter.cpp:160-195 | A least collateralized position exists whenever there is a position |
| Taking.ApplyOrder | libraries/chain/db_market.cpp:741-940 | A new order is matched with the better book, the margin calls and the rest. If nothing else on the books met anything before, nothing does afterwards: no two orders, no order and the settled debt, and no order and a called position; no dust is left and no balance falls. An order that meets no margin calls never fails; one that does fails only where the least collateralized position cannot pay the squeeze price or nothing of it is to be covered at that, or where margin calls are stuck after the feed has moved |
| Taking.MatchBook | libraries/chain/db_market.cpp:825-837 | The book is matched best first down to a floor; afterwards nothing above it meets the order |
| SettleTaking.ApplySettlement | libraries/chain/db_market.cpp:943-1021 | A new settle order is used up, or no position is called any more; terminates even when margin calls are looked for in between; it is never rejected, gets stuck only where nothing of a least collateralized position is to be covered, and does so where that is the case from the start |
| SettleTaking.MatchNext | libraries/chain/db_market.cpp:984-1003 | One match uses up part of the settle order, or shows that no position is called, or that nothing of the least collateralized one is to be covered |
| MarginCalls.CoverFromSettle | libraries/chain/db_market.cpp:1451-1660 | A called position and a settle order: debt is covered or the order is gone, exactly unless nothing is to be covered at that price |
| Taking.MatchCalls | libraries/chain/db_market.cpp:839-883 | Called positions are matched until the order is used up or none is called; without called positions nothing changes; it fails only at the least collateralized position, which cannot pay the squeeze price or of which nothing is to be covered at it |
| Taking.QuoteTake | libraries/chain/db_market.cpp:1366-1415 | The amounts of a match with a called position that can pay, when it cannot, and exactly when nothing is to be covered |
| Taking.CanExecute | libraries/chain/db_market.cpp:1371-1415 | A position that can pay the squeeze price can always execute, keeping its ratio |
| MarginCalls.KeptCanPay | libraries/chain/db_market.cpp:851-880 | A position whose ratio is kept can pay whatever it could pay before |
| Taking.BehindIsWellMatched | libraries/chain/db_market.cpp:747-755 | The early return behind another order leaves nothing on the books meeting anything |
| Taking.BehindDebtIsWellMatched | libraries/chain/db_market.cpp:747-755 | Nor does the early return behind the settled-debt order |
| Repayments.RepaidIsNoWorse | libraries/chain/credit_offer_evaluator.cpp:451-464 | A partial repayment never lowers the ratio of collateral to debt |
| Repayments.AfterAllIsNoWorse | libraries/chain/credit_offer_evaluator.cpp:451-464 | Nor does any series of repayments |
| Repayments.SplittingNeverPays | libraries/chain/credit_offer_evaluator.cpp:387-469 | Splitting a repayment releases no more collateral and costs no smaller total fee than paying at once |
| Repayments.ReleaseIsPartial | libraries/chain/credit_offer_evaluator.cpp:453-459 | A partial release is less than the collateral, so the internal check cannot fail |
| Repayments.AffordableIsLargest | libraries/chain/db_update.cpp:794-795 | The affordable amount is exactly the largest that fits with its fee |
| Repayments.AutoAmountIsBest | libraries/chain/db_update.cpp:792-804 | An automatic partial repayment can be paid, leaves debt, and is the cheapest that releases as much as the balance can free |
| Credits.AutoPay | libraries/chain/db_update.cpp:780-804 | What an automatic repayment pays never exceeds debt or, with its fee, the balance |
| Credits.CreditLedger.CreateOffer | libraries/chain/credit_offer_evaluator.cpp:71-91 | Succeeds exactly when the terms are acceptable and the balance suffices |
| Credits.CreditLedger.DeleteOffer | libraries/chain/credit_offer_evaluator.cpp:93-123 | Succeeds exactly for the owner when no deal refers to the offer |
| Credits.CreditLedger.UpdateOffer | libraries/chain/credit_offer_evaluator.cpp:125-227 | Succeeds exactly when allowed, except that nothing can be changed without funds in an emptied offer |
| Credits.CreditLedger.Accept | libraries/chain/credit_offer_evaluator.cpp:229-371 | Succeeds exactly when allowed and the offer lends for some time; opens the deal and keeps total less current equal to what is owed |
| Credits.CreditLedger.Repay | libraries/chain/credit_offer_evaluator.cpp:373-474 | Succeeds exactly when allowed; moves exactly amount, fee and released collateral; no internal check can fail |
| Credits.CreditLedger.TryAutoRepay | libraries/chain/db_update.cpp:772-827 | If permitted it fails only for lack of balance |
| Credits.CreditLedger.Expire | libraries/chain/db_update.cpp:829-870 | The lender takes the collateral in place of the debt |
| Credits.CreditLedger.ProcessDeals | libraries/chain/db_update.cpp:764-871 | Exactly the deals that are due disappear, assets are conserved and the loop ends |
| Credits.CreditLedger.SummaryMeansDeals | libraries/chain/credit_offer_evaluator.cpp:338-353 | A summary exists exactly when a deal does and is at least its debt |
| Credits.EmptiedOfferExample | libraries/chain/credit_offer_evaluator.cpp:213-217 | A run after which an update is refused by the defensive check |
| Credits.NoTimeExample | libraries/chain/credit_offer_evaluator.cpp:320-361 | An offer that lends for no time is accepted but cannot be borrowed from |
| Budget.Treasury.ProcessBudget | libraries/chain/db_maint.cpp:468-568 | Supply never exceeds its maximum, no core appears or is lost, supply changes by new less old pay plus worker pay less fees less refunds, and worker pay plus leftover is the worker budget |
| Budget.Treasury.PayWorkers | libraries/chain/db_maint.cpp:154-201 | Workers are paid in the order of votes then age; whoever is underpaid takes the last of the money |
| Budget.Treasury.PayWorker | libraries/chain/worker_evaluator.cpp:107-127 | A refund worker lowers the supply, the others receive the pay |
| Budget.Rank | libraries/chain/db_maint.cpp:158-174 | The active workers, each once, sorted by votes and age |
| Budget.PaidByRankIsUnique | libraries/chain/db_maint.cpp:180-200 | Rank and budget determine every payment |
| Budget.TotalBudget | libraries/chain/db_maint.cpp:449-460 | At most the reserve, and never zero while there is a reserve and time has passed |
| Budget.Treasury.Available | libraries/chain/db_maint.cpp:417-463 | What may be spent is within reserve, fees and unused pay |
| Budget.RefundExample | libraries/chain/db_maint.cpp:519-546 | A concrete budget whose record shows a supply change that did not happen |
| ForkSwitch.Node.PushBlock | libraries/chain/db_block.cpp:133-230 | Every outcome has its exact condition. The chain becomes the one to the highest block exactly when known blocks lead back from there and all apply; otherwise chain, state and every undo state are as before and exactly the blocks from the failed one on are forgotten. A block on top of the head is refused whenever a higher block is known that leads nowhere |
| ForkSwitch.Node.SwitchTo | libraries/chain/db_block.cpp:153-212 | Switching to a higher fork follows the path of known blocks to it or restores everything; it is given up exactly when no such path exists |
| ForkSwitch.Node.Replace | libraries/chain/db_block.cpp:156-211 | The end of the chain is replaced exactly when all blocks of the branch apply; otherwise the chain is as before |
| ForkSwitch.Node.SwitchBack | libraries/chain/db_block.cpp:178-208 | Going back leads to exactly the previous states and forgets the failed block and those after it |
| ForkSwitch.Node.Restore | libraries/chain/db_block.cpp:199-207 | Re-applying the previous chain cannot fail |
| ForkSwitch.Node.PushAll | libraries/chain/db_block.cpp:165-177 | Blocks are applied until one fails, and that one does not apply |
| ForkSwitch.Node.Extend | libraries/chain/db_block.cpp:216-227 | A block that extends the chain is applied and stored, or forgotten |
| ForkSwitch.Node.PopBlock | libraries/chain/db_block.cpp:523-539 | Undoes exactly the latest block; none of the checks can fail |
| ForkSwitch.Node.PopTo | libraries/chain/db_block.cpp:158-163 | Pops down to the fork point |
| ForkSwitch.Node.Learn | libraries/chain/fork_database.cpp:71-98 | A block is filed and becomes fork head if it is the highest |
| ForkSwitch.FetchBranch | libraries/chain/fork_database.cpp:148-190 | Two branches back to a common block, disjoint above it; exactly when known blocks lead back from both |
| ForkSwitch.Node.BranchIsPath | libraries/chain/fork_database.cpp:148-190 | Known blocks lead back along a branch and then along the chain |
| ForkSwitch.Node.ReachIs | libraries/chain/db_block.cpp:165-177 | Where the blocks of a path stop applying |
| ForgottenBlock.ForgottenExample | libraries/chain/fork_database.cpp:84-97 | A run in which a failed fork leaves a block that leads nowhere, a valid block on top of the head is then refused, and a higher one is accepted |
| ForkSwitch.Node.StateIsFold | libraries/chain/db_block.cpp:133-230 | Every undo state is the fold of a prefix of the chain |
| ForkSwitch.Node.ApplyBlock | libraries/chain/db_block.cpp:170-176 | State, undo history and block store move together, so stored blocks up to the head name the chain |
| Synopsis.GetSynopsis | libraries/app/application.cpp:901-1019 | Refused exactly if the fork is unknown or too old to switch to; otherwise it summarizes the chain up to the reference point |
| Synopsis.Summarize | libraries/app/application.cpp:1003-1015 | All indices are in range and the loop ends |
| Synopsis.SummaryIsShort | libraries/app/application.cpp:1003-1018 | Strictly increasing numbers, at most one more than the logarithm of the span, exactly that many and ending with the last block if nothing follows |
| Synopsis.GetBlockIds | libraries/app/application.cpp:771-817 | The reply is consecutive ids from the last known block on, as many as allowed, with the exact number remaining |
| Synopsis.FindLastKnown | libraries/app/application.cpp:783-806 | The last entry on the own chain is found, or none is |
| Synopsis.AnswerRepeatsLittle | libraries/app/application.cpp:771-1019 | The reply starts at a shared block and repeats no more shared blocks than there are blocks to replace |
| BlockStore.Store.Put | libraries/chain/block_database.cpp:82-99 | Stores a block under its number in place of any other; the log only grows and no other entry changes |
| BlockStore.Store.Remove | libraries/chain/block_database.cpp:101-118 | Removes a block exactly if it is the one stored under its number |
| BlockStore.Store.Contains | libraries/chain/block_database.cpp:120-134 | Agrees with the map of stored blocks |
| BlockStore.Store.FetchByNumber | libraries/chain/block_database.cpp:184-211 | Returns the stored block, or nothing for gaps and removed blocks |
| BlockStore.Store.FetchById | libraries/chain/block_database.cpp:152-182 | Returns the block only if it is the one stored |
| BlockStore.Store.LastId | libraries/chain/block_database.cpp:213-276 | Returns the highest stored block and cuts off only entries without one |
| Indexes.MemberIndex.LookupIsRecomputed | libraries/chain/account_object.cpp:108-258 | Each membership map equals the accounts whose authorities or memo key mention the key |
| Indexes.MemberIndex.Inserted | libraries/chain/account_object.cpp:137-154 | An inserted account is filed under exactly its members |
| Indexes.MemberIndex.Removed | libraries/chain/account_object.cpp:156-173 | A removed account is filed nowhere |
| Indexes.MemberIndex.AboutToModify | libraries/chain/account_object.cpp:175-184 | Remembers the members before a change |
| Indexes.MemberIndex.Modified | libraries/chain/account_object.cpp:186-258 | A changed account is filed under exactly its new members |
| Indexes.Move | libraries/chain/account_object.cpp:192-211 | Touching only the differences has the same effect as refiling |
| Indexes.BalanceIndex.Inserted | libraries/chain/account_object.cpp:263-273 | The chunked table equals the flat map with the entry added |
| Indexes.BalanceIndex.Removed | libraries/chain/account_object.cpp:275-280 | The chunked table equals the flat map without the entry |
| Indexes.BalanceIndex.Get | libraries/chain/account_object.cpp:301-308 | Lookup equals lookup in the flat map |
| Indexes.BalanceIndex.Allocate | libraries/chain/account_object.cpp:266-271 | Growing the table changes no balance |
| AmountText.RoundTrip | libraries/chain/asset_object.cpp:152-220 | Every amount within the share limit, negative ones between minus one and zero included, is read back as it was printed, for every precision |
| AmountText.FromText | libraries/chain/asset_object.cpp:152-205 | The reader computes the specified parse, refusing the least 64-bit number where it would have to be negated |
| AmountText.Scan | libraries/chain/asset_object.cpp:154-174 | Accepts exactly texts of digits with at most one sign and one point |
| AmountText.PrintedLayout | libraries/chain/asset_object.cpp:207-220 | The printed text is a sign, the whole part and the padded fraction |
| AmountSigns.ReadsWhatItSays | libraries/chain/asset_object.cpp:152-205 | A text without a sign, or with the sign first, is read as its signed decimal value if it has few enough places and is within the limit, and refused otherwise; only a sign directly before the point is refused besides |
| AmountSigns.MisplacedSign | libraries/chain/asset_object.cpp:161-203 | What is read instead when the sign stands elsewhere, by its place |
| AmountSigns.FirstDigitIsIgnored | libraries/chain/asset_object.cpp:181-185 | With the sign in the wrong place the first digit does not matter |
| AmountSigns.WithinLimit | libraries/chain/asset_object.cpp:198-203 | Unless the sign follows a first digit, every accepted amount is within the share limit |
| AmountSigns.LimitIsPassed | libraries/chain/asset_object.cpp:198-203 | With the sign there, after any digit and at any precision, an amount above the limit is accepted |
| AmountSigns.SignBeforeDigits | libraries/chain/asset_object.cpp:181-203 | A digit, the sign and digits are read as what follows the sign, whatever the limit |
| AmountText.UintToText | libraries/app/util.cpp:42-66 | Prints exactly the amount divided by the power of ten, without superfluous zeros |

## Left out

- Taking.ApplyOrder: that nothing meets anything is not claimed while the response to undercollateralization lets the feed move during matching; a match that would leave a position with debt but no collateral is rejected, where the original would carry it out; neither can happen for positions that can pay. A position that cannot pay may still be matched if rounding favours it.
- MarginCalls.CheckCallOrders: stops with the status Stuck where the original would repeat a pass that changes nothing, or hand out one unit of collateral for no debt.
- MarginCalls.CallPass: that a pass gets stuck is claimed where nothing of any least collateralized position is to be covered; where that is so of some of them only, it depends on which is taken. Nor is it claimed where the best limit order meets a position that cannot pay it and nothing is then to be covered by a settle order.
- MarginCalls.CappedFeedHasNoSwan: says nothing where the squeeze price itself is rounded, beyond the bound on the error of a product.
- Maturity.MatchMature: a match that would leave a position with debt but no collateral is rejected, where the original would carry it out; it cannot happen for a position that can pay the price.
- Runs.DoSettleMatured: that no position is called while settle orders are left is stated after every check of margin calls, and not kept through a revival, so processing due orders may fail after one; the volume settled since the last maintenance is given, not kept in the state, and reset by nothing.
- Runs.Run: updates of limit orders (limit_order_update) and changes of the response method are not among the operations.
- Finders.LeastExists: ties between positions with equal ratios are broken arbitrarily, where the original takes the lower id, as are ties between a limit order and the settled debt at the same price.
- ForkSwitch.Node.PushBlock: the undo history and the fork database reach back to the same block and are not pruned; popped transactions and the schedule of producers are not modelled. A forgotten block that arrives again makes the blocks on top of it lead back again, where the original keeps their broken links.
- Synopsis.GetBlockIds: an id beyond the head counts as unknown, where the original may find a stale entry of the block store.
- BlockStore.Store.LastId: entries cut in the middle and damaged logs are not modelled, nor is the id that is still reported for a removed block.
- AmountText.FromText: the text is made of characters with the decimal digits as the only digits.
- Credits.CreditLedger.ProcessDeals: offers are not disabled when their time comes, which is a loop over a flag.
- Indexes.BalanceIndex.Inserted: the stack of objects being modified is not modelled.
- on_fill take-profit orders, prediction markets, pre-hardfork branches and one-time fixes.
- Authorities, whitelists, flags and the accounts of fee distribution (cut_fee, process_fees).
- The decision to revive when a feed is published; both ways of reviving are modelled.
- Vote counting, elections, proposals, APIs, plugins, networking and serialisation.
