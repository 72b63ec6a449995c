# VolvasArena in Dafny

VolvasArena is a back-testing arena for trading bots. A price provider produces one price per tick for a single asset type. It is either a random-walk simulator or a replay of a recorded price list. A marketplace keeps the live buy and sell orders; on every tick it ages them, cancels the expired ones and settles those whose limit the latest price meets. Each subscribed trader bot then looks at the last ten prices and submits new orders. A buy strategy decides what to buy and a sell strategy decides what to sell. Both are chosen from a fixed catalogue, with or without cancelling the bot's older orders first. A round warms the market up for ten ticks, subscribes the bots a factory creates, runs the requested number of ticks, scores every bot and disposes of it. Reporters collect the scorecards round by round. A summarizer then picks each round's winner and the overall winner, and lays the results out as text histograms.

The model is a set of pure functions over immutable datatypes, one module per component:

| module | component |
|---|---|
| `Wrappers` | `Result` and `Option` |
| `Assets` | assets and the id counter that hands them out |
| `Fees` | the six courtage schedules |
| `Prices` | the price simulator, the price replay and the provider that is either one |
| `Orders` | buy and sell orders: construction, ageing, cancellation, fulfilment |
| `Strategy` | the deterministic buy and sell strategies |
| `Traders` | a bot's cash, holdings and outstanding orders, and how receipts change them |
| `Market` | the marketplace tick |
| `Arena` | bot factories, scorecards and one simulated round |
| `Reporters` | the two scorecard reporters |
| `Histograms` | the text histogram |
| `Summary` | the round and overall winners and the end-of-run report |

Money and prices are `real`s. The source's C# events become explicit receipts. Every `Marketplace` call to `FulfillOrder` or `CancelOrder` returns a `Receipt`, and the market hands it to the trader that owns the order. The source identifies orders by reference; the model gives each order a market-wide `id` and an `owner`, the trader's index. Every exception the source throws, including its `#if DEBUG` sanity checks, becomes an `Err`.

Some behaviour of the source is proved as stated rather than corrected:
- `LeaveOldOrBuyHalfAsManyAsYouCanAffordAtLastPrice` buys the full affordable amount (`Strategy.HalfAtLastPriceBuysFullAmount`).
- The half-profitable sell strategies always use a threshold of 102% of the last price, whatever factor they are given (`Strategy.HalfProfitableIgnoresFactor`).
- The equal-width histogram's top bucket is always empty (`Histograms.EqualWidthTopBucketEmpty`).
- `ScorecardReporter` can stay silent on the final round (`Reporters.FinalRoundMayGoUnreported`).

One defect is modelled both ways, as listed under "## Findings". `SubmitOrders` removes a new sell order's assets from holdings by re-running the sell rule's deferred query while `RemoveAll` compacts the list. `Traders.RemoveAllRequeried` models that removal as written, and `Traders.RequeriedRemovalLosesAnAsset` shows an asset lost by it. The rest of the model removes exactly the offered list (`Traders.PlaceSellOffers`), which keeps the bot's total (`Traders.PlacingSellsKeepsTotal`). The lemmas `Traders.HalfOfferOfThree`, `Traders.HalfQueryOfThree` and `Traders.HalfQueryAfterCopy` tie the example to the half rule.

## Model

| member | source | states |
|---|---|---|
| Assets.NewFactory | VolvasArena/Asset.cs:6 | a new factory's first asset has id 0 |
| Assets.GetUniqueAsset | VolvasArena/Asset.cs:8-14 | the asset carries the requested type and purchase price; its id is the counter before the call; the counter rises by one |
| Assets.GetMany | VolvasArena/Asset.cs:8-14 | k successive calls return ids counter, counter+1, …, and advance the counter by k |
| Assets.KthCallReturnsK | VolvasArena/Asset.cs:6-12 | starting from a fresh factory, the k-th asset has id k and no other asset has it |
| Assets.MintBatch | VolvasArena/Marketplace.cs:211 | a batch of n assets has strictly increasing, distinct ids within the counter's old and new values, all of the requested type and price |
| Assets.ConsecutiveBatchesDisjoint | VolvasArena/Asset.cs:8-14 | two batches minted one after the other share no asset, and every id of the first is below every id of the second |
| Fees.BuyCost | VolvasArena/TransactionCostCalculator.cs:7-84 | the buy cost is at least the schedule's minimum and at least its rate times price×amount, and equals one of the two |
| Fees.SellCost | VolvasArena/TransactionCostCalculator.cs:7-84 | the sell cost is the same maximum, computed on the sum of the assets' purchase prices |
| Fees.CourtageMonotone | VolvasArena/TransactionCostCalculator.cs:35-71 | courtage never falls as the traded value grows |
| Fees.BuyCostMonotone | VolvasArena/TransactionCostCalculator.cs:37-40 | at a positive price, buying more never costs less courtage |
| Fees.SellCostIgnoresSalePrice | VolvasArena/TransactionCostCalculator.cs:42-45 | selling courtage depends only on the purchase-price total, not on which assets or the sale price, and matches a buy of the same value |
| Fees.SumBoughtAppend | VolvasArena/TransactionCostCalculator.cs:44 | the purchase-price total of two lists is the sum of their totals |
| Prices.NewSimulator | VolvasArena/AssetPriceSimulator.cs:27-43 | construction fails iff the odds sum is more than 0.001 away from 1; otherwise the only price is the initial price at tick 0 |
| Prices.MaxTick | VolvasArena/AssetPriceSimulator.cs:34 | the result is a tick that occurs and no tick exceeds it |
| Prices.FirstWithTick | VolvasArena/AssetPriceSimulator.cs:35 | some entry has the tick iff the result is present, and it is the first such entry |
| Prices.LatestAssetPrice | VolvasArena/AssetPriceSimulator.cs:35 | the latest price is an entry carrying the largest tick |
| Prices.ConsecutiveLatestIsLast | VolvasArena/AssetPriceSimulator.cs:34-35 | with ticks numbered 0, 1, 2, … the tick count is the length less one and the latest price is the last entry |
| Prices.ChooseFrom | VolvasArena/AssetPriceSimulator.cs:62-73 | the scan from position i picks a position in [i, count) |
| Prices.ChooseFromSpec | VolvasArena/AssetPriceSimulator.cs:59-73 | the scan stops at the first alternative whose cumulative odds exceed the draw, falling back to the last alternative |
| Prices.ChooseAlternativeIsFirstCumulative | VolvasArena/AssetPriceSimulator.cs:59-73 | the chosen alternative k is the first whose cumulative odds up to k+1 exceed the draw; every earlier prefix is at most the draw |
| Prices.SimulatorTick | VolvasArena/AssetPriceSimulator.cs:45-76 | a tick appends the chosen alternative's change of the last price at the next tick; with consecutive ticks it never fails and advances the tick count by one |
| Prices.TickAfterAppend | VolvasArena/AssetPriceSimulator.cs:50-54 | appending the next tick keeps the numbering consecutive and adds one to the tick count |
| Prices.NumberPrices | VolvasArena/AssetPriceSimpleCSVReader.cs:41-51 | parsed values are numbered consecutively from tick 1, in order, with their values kept |
| Prices.NewReplay | VolvasArena/AssetPriceSimpleCSVReader.cs:21-26 | a new replay has shown no ticks and no prices |
| Prices.ReplayTick | VolvasArena/AssetPriceSimpleCSVReader.cs:28-31 | a tick only advances the counter by one |
| Prices.ReplayPrices | VolvasArena/AssetPriceSimpleCSVReader.cs:5 | the visible prices are a prefix of the loaded list, as long as the tick count when enough were loaded, and the whole loaded list once the tick count reaches its length |
| Prices.ReplayTickReveals | VolvasArena/AssetPriceSimpleCSVReader.cs:28-31 | a tick reveals exactly the next loaded price while any is left, and none once all are shown; nothing visible is hidden again |
| Prices.ReplayLatest | VolvasArena/AssetPriceSimpleCSVReader.cs:9 | the latest price exists iff 1 ≤ ticks ≤ loaded count, and then it is loaded entry ticks-1 |
| Prices.ReplayLatestTick | VolvasArena/AssetPriceSimpleCSVReader.cs:9-15 | with ticks numbered from 1, the latest price carries the tick count and is the last visible price |
| Prices.TicksSimulated | VolvasArena/AssetPriceSimulator.cs:34 | the tick count is the largest tick in the history; when ticks run 0, 1, 2, … it is the last index |
| Prices.TotalTicksAvailable | VolvasArena/AssetPriceSimpleCSVReader.cs:15 | when the loaded ticks run 1, 2, 3, … the count is the last tick and bounds every tick |
| Prices.ProviderTick | VolvasArena/IAssetPriceProvider.cs:13 | a provider keeps its kind across a tick; a replay never fails to tick; a simulator ticks exactly as the simulator's own tick does, failing when it fails |
| Prices.ProviderTickAdvancesByOne | VolvasArena/IAssetPriceProvider.cs:11-13 | a well-numbered provider always ticks, stays well-numbered and its tick count rises by exactly one |
| Prices.Recent | VolvasArena/Marketplace.cs:53 | the history is the last ten prices, newest first (fewer when fewer exist) |
| Prices.RecentIsNewestFirst | VolvasArena/Marketplace.cs:53-54 | for increasing ticks the history is strictly newest first and newer than every price left out |
| Orders.NewOrder | VolvasArena/Marketplace.cs:147-166 | construction fails iff time to live, price or amount is not positive or the reserve is negative; otherwise the order is live and keeps its arguments |
| Orders.NewBuyOrder | VolvasArena/Marketplace.cs:201-203 | a buy order reserves price×amount and satisfies the order invariant |
| Orders.NewSellOrder | VolvasArena/Marketplace.cs:236-240 | a sell order of no assets fails; otherwise it reserves nothing, its amount is the asset count and its type is the first asset's |
| Orders.CancelOrder | VolvasArena/Marketplace.cs:168-173 | cancelling marks the order cancelled and returns its whole reserve |
| Orders.HandleTick | VolvasArena/Marketplace.cs:182-194 | a finished order is untouched; a live one loses one tick and is cancelled, with a receipt, exactly when it reaches zero |
| Orders.HandleTickPreservesValid | VolvasArena/Marketplace.cs:182-194 | ageing an order that satisfies the invariant never fails and keeps the invariant |
| Orders.Countdown | VolvasArena/Marketplace.cs:182-194 | after j ≤ ttl ticks an order has ttl-j ticks left, is still live iff j < ttl and is cancelled iff j = ttl |
| Orders.FulfillOrder | VolvasArena/Marketplace.cs:175-180 | a buy fails iff price×amount exceeds the reserve; it mints exactly amount fresh assets and refunds reserve − cost − courtage; a sell transfers its own assets and pays proceeds − courtage |
| Orders.BuySettlementWithinReserve | VolvasArena/Marketplace.cs:102-106 | a valid buy order that the latest price settles never trips the reserve check of line 208 |
| Strategy.TruncDiv | VolvasArena/BuyAndSellStrategy.cs:189 | C#'s int division by a positive divisor: a non-negative dividend gives the q with q·b ≤ a < q·b + b, a negative one the q ≤ 0 with q·b − b < a ≤ q·b |
| Strategy.TruncDivUnique | VolvasArena/BuyAndSellStrategy.cs:189 | those bounds determine the quotient: any q meeting them is the result |
| Strategy.TruncDivOdd | VolvasArena/BuyAndSellStrategy.cs:189 | truncation is symmetric about zero: −a divided by b is −(a divided by b) |
| Strategy.MaxAffordable | VolvasArena/BuyAndSellStrategy.cs:165-166 | for a positive price, n units cost at most the money and n+1 units cost more |
| Strategy.DipCount | VolvasArena/BuyAndSellStrategy.cs:219-228 | the count is the length of the initial run of non-falling prices, stopped by the first fall |
| Strategy.PeakCount | VolvasArena/BuyAndSellStrategy.cs:344-353 | the count is the length of the initial run of non-rising prices, stopped by the first rise |
| Strategy.BoughtBelow | VolvasArena/BuyAndSellStrategy.cs:284 | the result holds exactly the owned assets bought below the threshold, never more copies of one than the input |
| Strategy.BoughtBelowSelects | VolvasArena/BuyAndSellStrategy.cs:284 | Where keeps order and multiplicity: the result is the input's subsequence at exactly the positions bought below the threshold |
| Strategy.SortByBought | VolvasArena/BuyAndSellStrategy.cs:285 | the result is a permutation of the input, sorted by purchase price |
| Strategy.SortStable | VolvasArena/BuyAndSellStrategy.cs:285 | assets with equal purchase price keep their relative order, as OrderBy promises |
| Strategy.Take | VolvasArena/BuyAndSellStrategy.cs:286 | the result is a prefix of length min(n, count), or empty for n ≤ 0 |
| Strategy.TakeSortedIsCheapest | VolvasArena/BuyAndSellStrategy.cs:285-286 | a prefix of the sorted list contains the cheapest assets |
| Strategy.AsManyAsYouCanAffordAtX | VolvasArena/BuyAndSellStrategy.cs:157-170 | with outstanding buys the result is the (0, -1) sentinel; otherwise one offer at last×factor for the largest affordable amount, which the money covers |
| Strategy.HalfAsManyAsYouCanAffordAtX | VolvasArena/BuyAndSellStrategy.cs:178-191 | the offer is half the affordable amount, truncated |
| Strategy.TheDipAtX | VolvasArena/BuyAndSellStrategy.cs:211-238 | the offer amount is dips×affordable/10, truncated |
| Strategy.DipNeverExceedsAffordable | VolvasArena/BuyAndSellStrategy.cs:230-236 | with at most eleven prices of history the dip offer never exceeds what the money covers |
| Strategy.HalfAtLastPriceBuysFullAmount | VolvasArena/BuyAndSellStrategy.cs:146-149 | the "half at last price" rule makes exactly the full-amount offer |
| Strategy.HalfProfitableAtX | VolvasArena/BuyAndSellStrategy.cs:272-288 | with outstanding sells the result is the empty sentinel; otherwise one offer at 102% of the last price of exactly min(half the holdings, number bought below that price) assets, a prefix of those assets sorted cheapest first |
| Strategy.AllProfitableAtX | VolvasArena/BuyAndSellStrategy.cs:302-316 | the offer holds exactly the owned assets bought below last×factor |
| Strategy.ProfitablePeakAtX | VolvasArena/BuyAndSellStrategy.cs:336-371 | no profitable asset means no offer; otherwise the cheapest peaks×count/10 profitable assets at last×factor |
| Strategy.HalfProfitableIgnoresFactor | VolvasArena/BuyAndSellStrategy.cs:280 | the half-profitable offer is the same for every factor |
| Strategy.ApplyBuyRule | VolvasArena/BuyAndSellStrategy.cs:140-238 | with outstanding buys every rule answers the (0, -1) sentinel; otherwise exactly one offer at last×factor, and the as-many rule bids the largest affordable amount |
| Strategy.BuyRuleAffordable | VolvasArena/BuyAndSellStrategy.cs:157-238 | for a positive order price and non-negative money (at most eleven prices of history for the dip rules) every buy rule's offer is between 0 and the affordable maximum, and the money covers it |
| Strategy.ApplySellRule | VolvasArena/BuyAndSellStrategy.cs:261-371 | with outstanding sells every rule answers the empty sentinel; otherwise at most one offer, exactly one unless a peak rule finds nothing to sell, priced at 102% of the last price for the half rules and at last×factor for the others |
| Strategy.ApplyProfitableRule | VolvasArena/BuyAndSellStrategy.cs:272-316 | the half and the all rules always answer exactly one offer, at 102% of the last price and at last×factor respectively |
| Strategy.SellRuleConsignsOwned | VolvasArena/BuyAndSellStrategy.cs:272-371 | whatever sell rule makes an offer, it consigns only owned assets, never more copies of one than are owned, each bought below the offer price |
| Strategy.LeaveOldBuys | VolvasArena/BuyAndSellStrategy.cs:139-212 | the seven LeaveOldOr… buy methods in source order, each named with that prefix and none cancelling older orders |
| Strategy.CancelOldBuys | VolvasArena/BuyAndSellStrategy.cs:57-111 | the seven CancelOldAnd… buy methods, each named with that prefix and cancelling older orders |
| Strategy.CancelOldBuysAreTwins | VolvasArena/BuyAndSellStrategy.cs:58-111 | CancelOldAnd… entry i is LeaveOldOr… entry i with cancelling switched on, and the two names share the part after the prefix |
| Strategy.BuyTwinRunsAlike | VolvasArena/BuyAndSellStrategy.cs:58-111 | the CancelOldAnd… twin of a LeaveOldOr… buy strategy bids, for any money and outstanding buys, what the LeaveOldOr… strategy bids with the money plus every outstanding reserve and no outstanding buy |
| Strategy.LeaveOldSells | VolvasArena/BuyAndSellStrategy.cs:260-335 | the seven LeaveOldOr… sell methods in source order, each named with that prefix and none cancelling older orders |
| Strategy.CancelOldSells | VolvasArena/BuyAndSellStrategy.cs:373-469 | the seven deterministic CancelOldAnd… sell methods, ordered as their twins, each named with that prefix and cancelling older orders |
| Strategy.CancelOldSellsAreTwins | VolvasArena/BuyAndSellStrategy.cs:374-469 | CancelOldAnd… entry i is LeaveOldOr… entry i with cancelling switched on, and the two names share the part after the prefix |
| Strategy.CancelOldSellRunsTwin | VolvasArena/BuyAndSellStrategy.cs:374-469 | a CancelOldAnd… method offers what its LeaveOldOr… twin offers on the holdings restored by cancelling every sell order, with none outstanding, and the twin itself cancels nothing |
| Strategy.CancelOutstandingBuyOrdersAndGetTotalMoney | VolvasArena/BuyAndSellStrategy.cs:521-531 | the money grows by the sum of the reserves, with one cancellation receipt per order |
| Strategy.CancelOutstandingSellOrdersAndGetAllAssets | VolvasArena/BuyAndSellStrategy.cs:533-545 | the result is the owned assets followed by each order's consigned assets, order by order, with one cancellation receipt per order |
| Strategy.RunBuyStrategy | VolvasArena/BuyAndSellStrategy.cs:58-112 | a cancel-old rule cancels every outstanding buy and bids with the released money as if none were outstanding; a leave-old rule cancels nothing |
| Strategy.RunSellStrategy | VolvasArena/BuyAndSellStrategy.cs:374-470 | a cancel-old rule cancels every outstanding sell and offers from the restored holdings; a leave-old rule cancels nothing |
| Traders.NewTrader | VolvasArena/TraderBot.cs:35-47 | a new bot holds only its start money, so its total assets equal the start money |
| Traders.RemoveOrder | VolvasArena/TraderBot.cs:97 | List.Remove drops the first order with the id, or nothing when there is none |
| Traders.RemoveAssets | VolvasArena/TraderBot.cs:101 | RemoveAll keeps exactly the holdings not among the transferred assets |
| Traders.RemoveAssetsSelects | VolvasArena/TraderBot.cs:62 | RemoveAll keeps order and multiplicity: the result is the holdings' subsequence at exactly the positions whose asset is not removed |
| Traders.RemoveTwice | VolvasArena/TraderBot.cs:55-62 | removing one offer's assets and then the next's equals removing both lists at once |
| Traders.GainIsValueLessCost | VolvasArena/TraderBot.cs:102 | the summed per-asset gain is count×sale price less the purchase total |
| Traders.Completions | VolvasArena/TraderBot.cs:105-108 | one completed transaction per sold asset, with its purchase and sale prices |
| Traders.OnOrderFulfilled | VolvasArena/TraderBot.cs:92-117 | money grows by the returned amount and cost by the courtage; a buy adds the assets and drops the order; a sell books the profit, the completions, and removes the assets and the order |
| Traders.OnOrderCancelled | VolvasArena/TraderBot.cs:119-145 | a buy refunds the reserve and drops the order; a sell returns its assets and fails iff an asset would then be held twice |
| Traders.Dispose | VolvasArena/TraderBot.cs:147-164 | both outstanding lists are emptied and nothing else changes |
| Traders.PlaceSellOffers | VolvasArena/TraderBot.cs:53-69 | empty offers place nothing; each placed order is fresh, a sell, and appended to the outstanding sells; the new orders consign exactly the offered assets, and holdings become the old holdings less every offered asset, in order |
| Traders.PlacingSellsKeepsTotal | VolvasArena/TraderBot.cs:22-25 | when the offered assets are distinct and all held, placing the sell orders leaves the bot's current total assets unchanged: what leaves holdings is consigned |
| Traders.PlaceBuyOffers | VolvasArena/TraderBot.cs:71-89 | non-positive amounts place nothing; money plus reserved funds is unchanged, and money is non-negative after any placement |
| Traders.SentinelsPlaceNothing | VolvasArena/TraderBot.cs:57-75 | the strategies' sentinel offers place no order and leave the bot unchanged |
| Traders.SubmitOrders | VolvasArena/TraderBot.cs:49-90 | the bot records the last price; its new orders are fresh and all sells come before all buys; afterwards it holds what it held when the sell rule ran (its holdings plus, for a CancelOld… rule, every consigned asset) less the assets that rule offered; each outstanding list is the orders no CancelOld… rule withdrew followed by the newly placed ones, and money plus buy reserves changes only by the reserves of withdrawn sell orders; name, asset type and strategies are kept |
| Traders.SellCancellationsClearBook | VolvasArena/TraderBot.cs:125-141 | cancelling the front sell orders in order leaves the rest of the outstanding sells and adds their reserves to money |
| Traders.BuyCancellationsClearBook | VolvasArena/BuyAndSellStrategy.cs:521-531 | cancelling the front buy orders in order always succeeds, leaves the rest of the outstanding buys and the sells, and adds their reserves to money |
| Traders.SellCancellationsReturnAssets | VolvasArena/BuyAndSellStrategy.cs:533-545 | applying the receipts of cancelling every outstanding sell appends their consigned assets to holdings and leaves the buys, the strategies and the observed price alone |
| Traders.ApplyReceiptsKeepsIdentity | VolvasArena/TraderBot.cs:92-145 | receipts never change a bot's name, asset type, strategies or observed price |
| Traders.CancelBuyConserves | VolvasArena/TraderBot.cs:119-141 | cancelling a buy keeps money plus reserved funds unchanged |
| Traders.BuyLifecycleCash | VolvasArena/TraderBot.cs:71-117 | placing a buy and having it settle costs exactly amount×settlement price plus courtage and adds amount assets |
| Traders.RemoveAllRequeried | VolvasArena/TraderBot.cs:62 | RemoveAll with a deferred query as the predicate's source: only holdings survive, never more than before, and a query matching nothing removes nothing |
| Traders.RequeriedExample | VolvasArena/TraderBot.cs:62 | for holdings a1, a3, a2, a query that picks a1 from them and a2 after a3 is copied over a1 leaves only a3 |
| Traders.HalfOfferIsQuery | VolvasArena/BuyAndSellStrategy.cs:280-286 | the half rule's offer is its Where/OrderBy/Take query over the holdings, with n fixed at half the holdings count |
| Traders.HalfQueryOfThree | VolvasArena/BuyAndSellStrategy.cs:283-286 | for holdings bought at p1, p3, p2 with p1 < p2 < p3 below the threshold, the half rule's query picks the first |
| Traders.HalfOfferOfThree | VolvasArena/BuyAndSellStrategy.cs:280-286 | for three holdings and no outstanding sell, the half rule offers its query's result for one asset at 102% of the last price |
| Traders.HalfQueryAfterCopy | VolvasArena/BuyAndSellStrategy.cs:283-286 | on the partly compacted list a3, a3, a2 the same query picks a2 |
| Traders.RequeriedRemovalLosesAnAsset | VolvasArena/TraderBot.cs:62 | for holdings a1, a3, a2 bought at p1 < p2 < p3 below the threshold, the source's removal with the half rule's query leaves [a3], while removing the list that query yields leaves [a3, a2] |
| Traders.SellProfitIsProceedsLessCost | VolvasArena/TraderBot.cs:99-113 | the realized profit of a sale is the net proceeds less the purchase total |
| Traders.CancelSellRestoresHoldings | VolvasArena/TraderBot.cs:125-137 | a cancelled sell of assets not otherwise held succeeds and restores exactly those assets |
| Traders.PlacingBuysKeepsTotal | VolvasArena/TraderBot.cs:22-25 | placing buy orders leaves the bot's current total assets unchanged |
| Traders.SameHoldingsSameTotal | VolvasArena/TraderBot.cs:22-25 | the total depends only on money plus reserves, holdings, consigned assets and the observed price |
| Traders.TotalByUnits | VolvasArena/TraderBot.cs:22-25 | the total values held and consigned units alike: cash plus buy reserves plus (held + consigned) × last observed price |
| Traders.ValuedUnitsAreHoldingsAfterCancel | VolvasArena/TraderBot.cs:22-25 | the units the total values are exactly the assets the bot would hold after cancelling every sell order |
| Traders.TotalIsWithdrawnValue | VolvasArena/TraderBot.cs:22-25 | the total is cash plus buy reserves plus, at the last observed price, the held assets followed by every consigned one |
| Traders.ApplyReceipt | VolvasArena/TraderBot.cs:92-145 | a fulfilment or a buy cancellation always applies, a sell cancellation applies iff no asset would then be held twice; money grows by the returned amount, the order leaves its own side's list only, and the bot's identity and observed price are kept |
| Market.NewMarket | VolvasArena/Marketplace.cs:17-21 | a new market has no traders, no orders, a fresh asset counter, and satisfies the market invariant |
| Market.Subscribe | VolvasArena/Marketplace.cs:23-26 | the trader is appended and nothing else changes |
| Market.SubscribeRange | VolvasArena/Marketplace.cs:28-31 | the traders are appended in order and nothing else changes |
| Market.SubscribeRangeIsRepeatedSubscribe | VolvasArena/Marketplace.cs:23-31 | subscribing a range equals subscribing its members one at a time |
| Market.Keep | VolvasArena/Marketplace.cs:97-98 | RemoveAll keeps exactly the orders matching the predicate, in order |
| Market.TickAll | VolvasArena/Marketplace.cs:87-95 | every order is aged; each order that expires yields a cancellation receipt |
| Market.SettleOne | VolvasArena/Marketplace.cs:100-118 | an order is fulfilled with one receipt at the latest price iff that price meets its limit |
| Market.HandleExistingOrders | VolvasArena/Marketplace.cs:85-122 | after ageing and settlement only live orders remain, nothing but traders, orders and the asset counter changes, and every trader keeps its name, asset type and strategies |
| Market.HandleExistingOrdersKeepsSurvivors | VolvasArena/Marketplace.cs:85-122 | the remaining orders are exactly those that neither expired nor settled, and the market invariant holds |
| Market.Accept | VolvasArena/Marketplace.cs:60-81 | every submitted order is listed; an order with no time to live fails, and after a sell no asset is on offer twice |
| Market.AcceptKeepsGood | VolvasArena/Marketplace.cs:60-81 | listing one trader's fresh orders keeps the market invariant, and a rejection can only come from a submission that contains a sell order |
| Market.SubmitAll | VolvasArena/Marketplace.cs:55-81 | traders from i on submit in turn; earlier traders and everything but traders, orders and the id counter are untouched, the counter never falls, order amounts stay positive and every trader stays the same participant, and the market invariant is kept; from past the last trader nothing changes |
| Market.MakeTick | VolvasArena/Marketplace.cs:42-83 | the provider ticks first; the trader count, the fees and positive order amounts are kept, and trader i is still the same participant |
| Market.MakeTickKeepsGood | VolvasArena/Marketplace.cs:42-83 | a tick keeps the market invariant and advances a well-numbered provider by one tick |
| Market.CollectOrders | VolvasArena/Marketplace.cs:48-82 | with no trader subscribed nothing changes; otherwise only the traders, the order lists and the id counter change, the counter never falls, and every trader stays the same participant |
| Market.RunForInitialPeriod | VolvasArena/Marketplace.cs:33-40 | it fails if the provider has already ticked; from a fresh provider it runs exactly ten ticks and changes nothing else |
| Arena.Evaluate | VolvasArena/BotArena.cs:140-169 | the scorecard copies the bot's figures; the relative profit exists iff the start money is non-zero, and times the start money gives the profit |
| Arena.NewDifferentStartMoney | VolvasArena/BotArena.cs:104-115 | construction fails iff the maximum is not above the minimum |
| Arena.PairingGrid | VolvasArena/BotArena.cs:79-92 | one bot per (buy, sell) pair |
| Arena.PairingGridOrder | VolvasArena/BotArena.cs:81-92 | bot i×sells+j pairs buy strategy i with sell strategy j, named "buy - sell" |
| Arena.NumberThatWillBeCreated | VolvasArena/BotArena.cs:79-117 | a strategy grid announces a non-negative count; a non-negative announcement is the number of bots created, and a negative one creates none |
| Arena.Create | VolvasArena/BotArena.cs:81-130 | the strategy factory yields the grid; the start-money factory yields max(n, 0) bots, bot i starting with min + i×step |
| Arena.CreateMatchesAnnouncement | VolvasArena/BotArena.cs:79-133 | each bot starts with its certificate's money, and a non-negative announced count is the created count |
| Arena.StartMoneySpansRange | VolvasArena/BotArena.cs:119-130 | the start amounts rise strictly from the minimum to exactly the maximum |
| Arena.MakeTicks | VolvasArena/BotArena.cs:40-43 | repeated ticks keep the trader count, the fees, and each trader's name, asset type and strategies |
| Arena.MakeTicksKeepsGood | VolvasArena/BotArena.cs:40-43 | repeated ticks keep the market invariant and advance a well-numbered provider by one tick each |
| Arena.RunOneSimulation | VolvasArena/BotArena.cs:29-53 | a round scores every created bot as it ends the round with its own start money, then disposes of it, leaving no outstanding orders; scored bot i is created bot i, with the same name, asset type and strategies |
| Arena.RoundTickCount | VolvasArena/BotArena.cs:29-53 | a round on a fresh provider ends after exactly ten warm-up ticks plus the requested ticks |
| Reporters.IntSqrt | VolvasArena/SimulationResultsReporter.cs:42 | the report interval is the integer square root of the round count |
| Reporters.NewBookkeeping | VolvasArena/SimulationResultsReporter.cs:39-51 | construction fails iff the announced bot count is negative; otherwise one empty column per bot |
| Reporters.AppendColumns | VolvasArena/SimulationResultsReporter.cs:57-60 | scorecard i is appended to column i, and more scorecards than columns fail |
| Reporters.Record | VolvasArena/SimulationResultsReporter.cs:55-66 | recording fails iff there are too many scorecards or the round count would be exceeded; otherwise the count rises by one |
| Reporters.Estimate | VolvasArena/SimulationResultsReporter.cs:70-76 | the estimate is the remaining rounds times the time per round so far: zero when done, never negative |
| Reporters.AddScorecard | VolvasArena/SimulationResultsReporter.cs:53-90 | a progress line appears iff fewer than five rounds are done, the count is a multiple of the interval, or this was the last round; the last round reports zero time remaining |
| Reporters.AddPriceDevelopment | VolvasArena/SimulationResultsReporter.cs:92-105 | the provider's prices, in tick order, are appended as one more series |
| Reporters.NewScorecardLog | VolvasArena/ScorecardReporter.cs:22-33 | construction fails iff the announced bot count is negative |
| Reporters.AddToLog | VolvasArena/ScorecardReporter.cs:35-62 | like AddScorecard, but the last round is not a reason to report |
| Reporters.FinalRoundMayGoUnreported | VolvasArena/ScorecardReporter.cs:49 | with seven rounds the seventh produces no progress line |
| Reporters.RecordAll | VolvasArena/SimulationResultsReporter.cs:53-66 | recording rounds one after the other keeps the bookkeeping consistent |
| Reporters.RecordAllColumns | VolvasArena/SimulationResultsReporter.cs:57-62 | recording complete rounds succeeds and leaves column i holding bot i's scorecards in round order |
| Histograms.Filter | VolvasArena/Histogram.cs:84 | a bucket receives exactly the values with low ≤ v < high, with multiplicity |
| Histograms.InsertValues | VolvasArena/Histogram.cs:77-93 | each bucket receives exactly the values inside it, with multiplicity; a duplicate bucket or a lost value fails |
| Histograms.FromBuckets | VolvasArena/Histogram.cs:18-22 | the custom constructor counts the buckets and inserts the values |
| Histograms.ChainCountsOnce | VolvasArena/Histogram.cs:56-72 | in contiguous buckets a value inside the span lies in exactly one bucket, and otherwise in none |
| Histograms.ChainInsert | VolvasArena/Histogram.cs:77-93 | inserting values inside a chain's span never fails the total check |
| Histograms.StepBuckets | VolvasArena/Histogram.cs:48-52 | the loop produces one bucket per step |
| Histograms.StepBucketsShape | VolvasArena/Histogram.cs:48-52 | the loop's k-th bucket is [low+(k+1)step, low+(k+2)step) and its final value is low+count×step |
| Histograms.Span | VolvasArena/Histogram.cs:32-40 | the range runs from the smallest value to the largest, nudged up by 1e-5 when they are equal |
| Histograms.EqualWidthLayout | VolvasArena/Histogram.cs:28-72 | an empty input or a non-positive count fails; otherwise n+2 contiguous buckets |
| Histograms.EqualWidthLayoutShape | VolvasArena/Histogram.cs:42-54 | the step is positive and the layout is the open first bucket, n equal bands and the open last bucket |
| Histograms.EqualWidth | VolvasArena/Histogram.cs:24-75 | construction fails iff the values are empty or the bucket count is not positive; otherwise the n+2 buckets of the layout cover every value exactly once and hold exactly what InsertValues puts in them |
| Histograms.Layout | VolvasArena/Histogram.cs:44-54 | n+2 buckets: the open first bucket below lo+step, band k = [lo+k·step, lo+(k+1)·step) for k = 1 … n, and the open last bucket from lo+(n+1)·step; contiguous for a positive step |
| Histograms.EqualWidthTopBucketEmpty | VolvasArena/Histogram.cs:46-54 | the first bucket starts one step above the minimum, so the last bucket lies above the maximum and is always empty |
| Histograms.InsertSorted | VolvasArena/Histogram.cs:97 | insertion keeps the entries sorted by lower bound and loses none |
| Histograms.OrderedBuckets | VolvasArena/Histogram.cs:95-103 | the entries come out as a permutation sorted by lower bound |
| Histograms.OrderedBucketsKeepsSorted | VolvasArena/Histogram.cs:95-103 | entries already in order come out unchanged |
| Histograms.LongestBucket | VolvasArena/Histogram.cs:113 | the result is the largest bucket size |
| Histograms.CeilDiv | VolvasArena/Histogram.cs:113 | the ceiling of a non-negative count over a positive height is the least q with count <= q·height |
| Histograms.ValueOfStar | VolvasArena/Histogram.cs:107-114 | exactly one of the two arguments must be given; for a positive column height the value is the ceiling of longest/height |
| Histograms.Stars | VolvasArena/Histogram.cs:124-130 | one star for a non-empty bucket plus count/value more; a zero value fails |
| Histograms.StarsPerBar | VolvasArena/Histogram.cs:116-132 | one bar per bucket; a zero star value fails unless there are no buckets |
| Histograms.BarsWithinHeight | VolvasArena/Histogram.cs:105-132 | with a maximum column height no bar exceeds that height plus one |
| Histograms.Bars | VolvasArena/Histogram.cs:105-132 | one bar per bucket in lower-bound order, non-empty exactly for the non-empty buckets; with a column height the bars exist iff some bucket is filled; with a star value they exist iff it is non-zero or there are no buckets, and a positive star value draws 1 + count/value stars for a filled bucket |
| Histograms.FilledBucket | VolvasArena/Histogram.cs:113 | values counted in the buckets fill at least one, so the longest bucket is positive |
| Histograms.EqualWidthBarsDrawn | VolvasArena/Histogram.cs:28-132 | the equal-width histogram of non-empty values exists and can be printed to any positive column height |
| Summary.FindIndex | VolvasArena/ScoreCardSummarizer.cs:21 | the first position holding the value, or -1 when it is absent |
| Summary.FirstMax | VolvasArena/ScoreCardSummarizer.cs:21 | the winner has the highest score and every earlier bot scored strictly less |
| Summary.RoundScores | VolvasArena/ScoreCardSummarizer.cs:19 | bot b's KPI in round i; fails iff some bot lacks that round |
| Summary.Winners | VolvasArena/ScoreCardSummarizer.cs:15-24 | one winner per round, the first bot with that round's highest KPI |
| Summary.WinBuckets | VolvasArena/ScoreCardSummarizer.cs:26 | bucket k is [k-1, k) for k = 0 … bot count |
| Summary.WinHistogram | VolvasArena/ScoreCardSummarizer.cs:26-27 | the buckets are contiguous, the histogram succeeds and every winner is counted once |
| Summary.TallyCounts | VolvasArena/ScoreCardSummarizer.cs:30 | the groups come in first-appearance order, each with its number of wins, and the counts sum to the rounds |
| Summary.DistinctInFirstAppearanceOrder | VolvasArena/ScoreCardSummarizer.cs:30 | the groups appear in order of each bot's first win |
| Summary.OverallWinner | VolvasArena/ScoreCardSummarizer.cs:30-31 | an overall winner exists iff some round was played |
| Summary.OverallWinnerHasMostWins | VolvasArena/ScoreCardSummarizer.cs:30-31 | the overall winner won a round, has the most wins, and among tied bots is the one that won first |
| Summary.FinalPrices | VolvasArena/ScoreCardSummarizer.cs:54 | the last price of every series; fails iff a series is empty |
| Summary.FinalPriceIsLatest | VolvasArena/ScoreCardSummarizer.cs:54 | the last price of a recorded series is the provider's latest price |
| Summary.Summarize | VolvasArena/ScoreCardSummarizer.cs:5-56 | it succeeds only on summarizable input (some bot, bot 0 played a round and no bot fewer, every price series non-empty); the report names the bots, lists the round winners and the overall winner (a valid bot index), and the final prices |
| Summary.OverallWinnerIsBot | VolvasArena/ScoreCardSummarizer.cs:30-31 | the overall winner is the index of one of the bots |
| Summary.WinnersAreBots | VolvasArena/ScoreCardSummarizer.cs:21-31 | every round winner is a valid bot index |
| Summary.SummarizeSucceeds | VolvasArena/ScoreCardSummarizer.cs:5-56 | the converse: summarizable input always yields a report |
| Summary.WinnerPartSucceeds | VolvasArena/ScoreCardSummarizer.cs:9-31 | once bot 0 played a round and no bot fewer, the winners, their histogram, its bars and an overall winner that is a bot index all exist |
| Summary.HistogramPartSucceeds | VolvasArena/ScoreCardSummarizer.cs:38-56 | for summarizable input the overall winner's KPI histogram, the final prices and their histogram, and both sets of bars exist |
| Summary.WinBarsDrawn | VolvasArena/ScoreCardSummarizer.cs:26-28 | winners that are bot indices fill the win histogram, so its bars exist for any positive height |

## Left out

- Random numbers: the simulator's draws and the random strategies' choices are parameters (`draw`, `draws`). The random, spread and liquidity strategies are not modelled.
- File I/O: reading the CSV file, regex parsing of numbers, and every file the reporters write. A replay starts from an already parsed list, and `Prices.NumberPrices` numbers it.
- The clock: elapsed milliseconds are a parameter of the reporters.
- Console output and text formatting: progress lines are a `Progress` value and histogram bars are star counts. The summarizer's "index: name" labels, the averages per podium member and the "Each * represents" line are left out.
- Concurrency: the locks, `Parallel.For` and the asynchronous file chain. The comparison of bot factories over many rounds is modelled only as rounds recorded one after another (`Reporters.RecordAll`).
- Reflection over the strategy catalogue: `GetBuySrategies` and `GetSellSrategies` list every public static method, because every `SkipWhenFormingExecutionList` attribute is commented out. The model lists the deterministic methods by name (`Strategy.LeaveOldBuys` and its three siblings); the random, spread and liquidity methods are not modelled, as above. The program's command-line entry point is left out too.
- Floating point: money is `real`, so rounding is not modelled. Three effects follow. The 1e-5 nudge is exact. `(int)Math.Sqrt` of a negative round count, which is NaN cast to int, is modelled as interval 0. `RelativeRealizedProfit` for zero start money, which is ∞ or NaN in C#, is `None`. `Histograms.ValueOfStar` with a zero maxStarsInColumn returns `Err`, where C# casts ∞ or NaN to int with an unspecified result; the callers pass 50 and 30, so this is never reached.
- 32-bit integer overflow of ids, counts and tick numbers.
- The deferred `Select` in a buy fulfilment: the DEBUG duplicate check enumerates it once and the receiving trader again, so each enumeration mints fresh ids. The model mints one batch.
- Events and their unsubscription: receipts are delivered directly to the owning trader in the order the market produces them.
- Once `AddScorecard` throws, the reporter's state is partly updated. The model returns `Err` and keeps none of that state.
- Histograms.OrderedBuckets: the contract proves sortedness and permutation but not stability under equal lower bounds. The model's buckets never share a lower bound.
- Market.MakeTick: states that trader count, fees and positive order amounts are kept. The invariant of live, well-listed orders is stated separately in `Market.MakeTickKeepsGood`.
- Summary.Summarize: the bar counts of its three histograms are stated through `Histograms.Bars` and `Histograms.BarsWithinHeight`, not repeated in its own contract.
- Strategy.MaxAffordable: a zero threshold yields 0 here. In C# the double division gives ∞ or NaN, and the int cast of that is unspecified. Only the last price times a factor reaches this, so it needs a zero price.
- Traders.SubmitOrders: the holdings, outstanding-list and cash clauses are stated when every order a CancelOld… rule cancels is on its own side, which is how the bot files its orders. It is stated for the offers as the model's `RemoveAssets` removes them. How the source's deferred query changes that is described under "## Findings".
- The ProfitablePeak rule hands `SubmitOrders` the same kind of deferred query (BuyAndSellStrategy.cs:363-368), so its removal can lose assets the same way. Only the half rule's case is worked out as a lemma.
- The random sell rules at BuyAndSellStrategy.cs:249 and 257 also return deferred queries. They are not modelled, because they are random.

## Findings

| source | as written | input that shows it | evidently intended | confidence | as-written member | corrected member |
|---|---|---|---|---|---|---|
| VolvasArena/TraderBot.cs:62 | `RemoveAll(w => offer.Contains(w))`, where the offer is the half rule's unevaluated Where/OrderBy/Take query over the bot's own holdings list (BuyAndSellStrategy.cs:283-286). .NET's RemoveAll copies survivors down before it shrinks the list, and each `Contains` re-runs the query over the partly compacted list. | holdings bought at 1, 3, 2 in that order; last price 10, so the threshold is 10.2 and n = 3/2 = 1; no sell order outstanding. The order consigns the first asset. After the asset bought at 3 is copied over it, the query picks the asset bought at 2, so that asset is removed too. Holdings end as [3], and the asset bought at 2 is neither held nor on offer. | remove exactly the assets the new sell order consigns: holdings become [3, 2] | not executed | Traders.RequeriedRemovalLosesAnAsset | Traders.PlaceSellOffers |
