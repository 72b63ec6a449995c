/** Trader bookkeeping (TraderBot in VolvasArena/TraderBot.cs): turning
    strategy instructions into orders, and applying the receipts of its orders
    to cash, holdings, realized profit and fees. */
module Traders {
  import opened Wrappers
  import opened Assets
  import opened Fees
  import opened Orders
  import opened Strategy

  datatype CompletedTransaction = CompletedTransaction(asset: Asset, purchasePrice: AssetPrice, sellPrice: AssetPrice)

  datatype Trader = Trader(
    name: string,
    assetType: AssetType,
    buyStrategy: BuyStrategy,
    sellStrategy: SellStrategy,
    money: real,
    owned: seq<Asset>,
    outstandingBuys: seq<Order>,
    outstandingSells: seq<Order>,
    completed: seq<CompletedTransaction>,
    lastObservedPrice: real,
    realizedProfit: real,
    transactionCost: real)

  /** Every order a trader submits lives for ten ticks. */
  const OrderTicksToLive := 10

  function NewTrader(name: string, startMoney: real, t: AssetType, buy: BuyStrategy, sell: SellStrategy): (r: Trader)
    ensures r.money == startMoney && r.owned == [] && r.outstandingBuys == [] && r.outstandingSells == []
    ensures r.completed == [] && r.realizedProfit == 0.0 && r.transactionCost == 0.0
    ensures CurrentTotalAssets(r) == startMoney
  {
    Trader(name, t, buy, sell, startMoney, [], [], [], [], 0.0, 0.0, 0.0)
  }

  // ---------------------------------------------------------------------
  // Valuation

  /** Number of assets consigned in the given sell orders. */
  function ConsignedCount(orders: seq<Order>): nat
    decreases |orders|
  {
    if |orders| == 0 then 0 else ConsignedCount(orders[..|orders| - 1]) + |orders[|orders| - 1].assets|
  }

  /** CurrentTotalAssets: cash, the reserves of outstanding buy orders, and
      every owned or consigned asset valued at the last observed price. */
  function CurrentTotalAssets(t: Trader): real {
    t.money + SumReserved(t.outstandingBuys)
      + |t.owned| as real * t.lastObservedPrice
      + ConsignedCount(t.outstandingSells) as real * t.lastObservedPrice
  }

  // ---------------------------------------------------------------------
  // List helpers

  /** Index i holds the first order with the given identity. */
  ghost predicate FirstWithId(orders: seq<Order>, id: nat, i: int) {
    0 <= i < |orders| && orders[i].id == id && forall j :: 0 <= j < i ==> orders[j].id != id
  }

  /** List.Remove: drops the first order with the given identity, if any. */
  function RemoveOrder(orders: seq<Order>, id: nat): (r: seq<Order>)
    ensures (forall i :: 0 <= i < |orders| ==> orders[i].id != id) ==> r == orders
    ensures forall i :: FirstWithId(orders, id, i) ==> r == orders[..i] + orders[i + 1..]
    decreases |orders|
  {
    if |orders| == 0 then []
    else if orders[0].id == id then orders[1..]
    else
      var rest := RemoveOrder(orders[1..], id);
      RemoveOrderStep(orders, id, rest);
      [orders[0]] + rest
  }

  lemma RemoveOrderStep(orders: seq<Order>, id: nat, rest: seq<Order>)
    requires |orders| > 0 && orders[0].id != id
    requires (forall i :: 0 <= i < |orders[1..]| ==> orders[1..][i].id != id) ==> rest == orders[1..]
    requires forall i :: FirstWithId(orders[1..], id, i) ==> rest == orders[1..][..i] + orders[1..][i + 1..]
    ensures (forall i :: 0 <= i < |orders| ==> orders[i].id != id) ==> [orders[0]] + rest == orders
    ensures forall i :: FirstWithId(orders, id, i) ==> [orders[0]] + rest == orders[..i] + orders[i + 1..]
  {
    if forall i :: 0 <= i < |orders| ==> orders[i].id != id {
      assert forall i :: 0 <= i < |orders[1..]| ==> orders[1..][i].id == orders[i + 1].id;
      assert orders == [orders[0]] + orders[1..];
    }
    forall i | FirstWithId(orders, id, i)
      ensures [orders[0]] + rest == orders[..i] + orders[i + 1..]
    {
      assert i >= 1;
      assert FirstWithId(orders[1..], id, i - 1);
      assert orders[..i] + orders[i + 1..] == [orders[0]] + (orders[1..][..i - 1] + orders[1..][i..]);
    }
  }

  /** RemoveAll(w => assets.Contains(w)): keeps, in order, the owned assets not
      in the given list. */
  function RemoveAssets(owned: seq<Asset>, assets: seq<Asset>): (r: seq<Asset>)
    ensures forall a :: a in r <==> a in owned && a !in assets
    ensures |r| <= |owned|
    decreases |owned|
  {
    if |owned| == 0 then []
    else
      var rest := RemoveAssets(owned[1..], assets);
      assert owned == [owned[0]] + owned[1..];
      if owned[0] in assets then rest else [owned[0]] + rest
  }

  /** r keeps, in order, exactly the positions of `owned` whose asset is not
      in `assets`. */
  ghost predicate SelectsOutside(r: seq<Asset>, owned: seq<Asset>, assets: seq<Asset>, idx: seq<int>) {
    Embedding(r, owned, idx) &&
    forall k :: 0 <= k < |owned| ==> (k in idx <==> owned[k] !in assets)
  }

  /** Every position moved one place right. */
  function Shift(idx: seq<int>): (r: seq<int>)
    ensures |r| == |idx| && forall i :: 0 <= i < |r| ==> r[i] == idx[i] + 1
  {
    seq(|idx|, i requires 0 <= i < |idx| => idx[i] + 1)
  }

  /** RemoveAll keeps list order and multiplicity: the result is the
      subsequence of the holdings at exactly the positions not removed. */
  lemma {:induction false} RemoveAssetsSelects(owned: seq<Asset>, assets: seq<Asset>)
    ensures exists idx :: SelectsOutside(RemoveAssets(owned, assets), owned, assets, idx)
    decreases |owned|
  {
    if |owned| == 0 {
      assert SelectsOutside(RemoveAssets(owned, assets), owned, assets, []);
    } else {
      var tail := owned[1..];
      RemoveAssetsSelects(tail, assets);
      var idx :| SelectsOutside(RemoveAssets(tail, assets), tail, assets, idx);
      var rest := RemoveAssets(tail, assets);
      OutsideShift(owned, tail, assets, rest, idx);
      if owned[0] in assets {
        assert RemoveAssets(owned, assets) == rest;
        assert SelectsOutside(RemoveAssets(owned, assets), owned, assets, Shift(idx));
      } else {
        assert RemoveAssets(owned, assets) == [owned[0]] + rest;
        OutsideKeepHead(owned, assets, rest, Shift(idx));
        assert SelectsOutside(RemoveAssets(owned, assets), owned, assets, [0] + Shift(idx));
      }
    }
  }

  /** The selection of the tail, shifted, selects within the whole list
      everything after the head. */
  lemma OutsideShift(owned: seq<Asset>, tail: seq<Asset>, assets: seq<Asset>, rest: seq<Asset>, idx: seq<int>)
    requires |owned| > 0 && tail == owned[1..]
    requires SelectsOutside(rest, tail, assets, idx)
    ensures Embedding(rest, owned, Shift(idx))
    ensures forall i :: 0 <= i < |idx| ==> Shift(idx)[i] >= 1
    ensures forall k :: 1 <= k < |owned| ==> (k in Shift(idx) <==> owned[k] !in assets)
    ensures owned[0] in assets ==> SelectsOutside(rest, owned, assets, Shift(idx))
  {
    ShiftEmbeds(owned, tail, rest, idx);
    ShiftSelects(owned, tail, assets, idx);
    assert 0 !in Shift(idx);
  }

  lemma ShiftEmbeds(owned: seq<Asset>, tail: seq<Asset>, rest: seq<Asset>, idx: seq<int>)
    requires |owned| > 0 && tail == owned[1..]
    requires Embedding(rest, tail, idx)
    ensures Embedding(rest, owned, Shift(idx))
  {
    var sh := Shift(idx);
    forall i | 0 <= i < |sh|
      ensures 0 <= sh[i] < |owned| && rest[i] == owned[sh[i]]
    {
      assert tail[idx[i]] == owned[sh[i]];
    }
  }

  lemma ShiftSelects(owned: seq<Asset>, tail: seq<Asset>, assets: seq<Asset>, idx: seq<int>)
    requires |owned| > 0 && tail == owned[1..]
    requires forall i :: 0 <= i < |idx| ==> 0 <= idx[i] < |tail|
    requires forall k :: 0 <= k < |tail| ==> (k in idx <==> tail[k] !in assets)
    ensures forall k :: 1 <= k < |owned| ==> (k in Shift(idx) <==> owned[k] !in assets)
  {
    var sh := Shift(idx);
    forall k | 1 <= k < |owned|
      ensures k in sh <==> owned[k] !in assets
    {
      assert tail[k - 1] == owned[k];
      if k in sh {
        var i :| 0 <= i < |sh| && sh[i] == k;
        assert idx[i] == k - 1;
      }
      if k - 1 in idx {
        var i :| 0 <= i < |idx| && idx[i] == k - 1;
        assert sh[i] == k;
      }
    }
  }

  lemma OutsideKeepHead(owned: seq<Asset>, assets: seq<Asset>, rest: seq<Asset>, sh: seq<int>)
    requires |owned| > 0 && owned[0] !in assets
    requires Embedding(rest, owned, sh)
    requires forall i :: 0 <= i < |sh| ==> sh[i] >= 1
    requires forall k :: 1 <= k < |owned| ==> (k in sh <==> owned[k] !in assets)
    ensures SelectsOutside([owned[0]] + rest, owned, assets, [0] + sh)
  {
    var idx := [0] + sh;
    var r := [owned[0]] + rest;
    forall i | 1 <= i < |idx|
      ensures idx[i] == sh[i - 1] && r[i] == rest[i - 1]
    {
    }
    forall k | 1 <= k < |owned|
      ensures k in idx <==> k in sh
    {
    }
  }

  /** Σ (sale price − purchase price) over the sold assets. */
  function GainOver(assets: seq<Asset>, salePrice: real): real
    decreases |assets|
  {
    if |assets| == 0 then 0.0 else GainOver(assets[..|assets| - 1], salePrice) + (salePrice - Bought(assets[|assets| - 1]))
  }

  /** The gain of a sale is the sale value less the purchase prices. */
  lemma {:induction false} GainIsValueLessCost(assets: seq<Asset>, salePrice: real)
    ensures GainOver(assets, salePrice) == |assets| as real * salePrice - SumBought(assets)
    decreases |assets|
  {
    if |assets| > 0 {
      GainIsValueLessCost(assets[..|assets| - 1], salePrice);
    }
  }

  /** One CompletedTransaction per sold asset, in order. */
  function Completions(assets: seq<Asset>, sale: AssetPrice): (r: seq<CompletedTransaction>)
    ensures |r| == |assets|
    ensures forall i :: 0 <= i < |assets| ==> r[i] == CompletedTransaction(assets[i], assets[i].boughtAt, sale)
    decreases |assets|
  {
    if |assets| == 0 then []
    else Completions(assets[..|assets| - 1], sale) + [CompletedTransaction(assets[|assets| - 1], assets[|assets| - 1].boughtAt, sale)]
  }

  // ---------------------------------------------------------------------
  // Receipts

  /** OnOrderFulfilled. A buy adds the minted assets to holdings; a sell books
      realized profit and one completed transaction per consigned asset. Either
      way the order leaves the outstanding list, the returned money is added to
      cash and the courtage to the fees. */
  function OnOrderFulfilled(t: Trader, rc: Receipt): (r: Trader)
    requires rc.FulfilledReceipt?
    ensures r.money == t.money + rc.returned && r.transactionCost == t.transactionCost + rc.courtage
    ensures rc.order.side == Buy ==>
      r == t.(owned := t.owned + rc.transferred,
              outstandingBuys := RemoveOrder(t.outstandingBuys, rc.order.id),
              money := r.money, transactionCost := r.transactionCost)
    ensures rc.order.side == Sell ==>
      r.realizedProfit == t.realizedProfit + GainOver(rc.transferred, rc.finalPrice.price) - rc.courtage &&
      r.completed == t.completed + Completions(rc.order.assets, rc.finalPrice) &&
      r.outstandingSells == RemoveOrder(t.outstandingSells, rc.order.id) &&
      r.owned == RemoveAssets(t.owned, rc.transferred) && r.outstandingBuys == t.outstandingBuys
  {
    var t1 :=
      if rc.order.side == Buy then
        t.(owned := t.owned + rc.transferred, outstandingBuys := RemoveOrder(t.outstandingBuys, rc.order.id))
      else
        t.(owned := RemoveAssets(t.owned, rc.transferred),
           realizedProfit := t.realizedProfit + GainOver(rc.transferred, rc.finalPrice.price) - rc.courtage,
           outstandingSells := RemoveOrder(t.outstandingSells, rc.order.id),
           completed := t.completed + Completions(rc.order.assets, rc.finalPrice));
    t1.(money := t1.money + rc.returned, transactionCost := t1.transactionCost + rc.courtage)
  }

  /** Executable duplicate test (the DEBUG check on holdings). */
  predicate HasDuplicate(s: seq<Asset>) {
    exists i, j :: 0 <= i < j < |s| && s[i] == s[j]
  }

  /** OnOrderCancelled. A buy order only leaves the outstanding list; a sell
      order also gives its assets back to holdings, which (DEBUG) must then hold
      no asset twice. The returned money is added to cash. */
  function OnOrderCancelled(t: Trader, rc: Receipt): (r: Result<Trader>)
    requires rc.CancelledReceipt?
    ensures rc.order.side == Buy ==>
      r == Ok(t.(outstandingBuys := RemoveOrder(t.outstandingBuys, rc.order.id), money := t.money + rc.returned))
    ensures rc.order.side == Sell ==>
      (r.Ok? <==> !HasDuplicate(t.owned + rc.order.assets)) &&
      (r.Ok? ==> r.value == t.(outstandingSells := RemoveOrder(t.outstandingSells, rc.order.id),
                               owned := t.owned + rc.order.assets, money := t.money + rc.returned))
  {
    match rc.order.side
    case Buy =>
      Ok(t.(outstandingBuys := RemoveOrder(t.outstandingBuys, rc.order.id), money := t.money + rc.returned))
    case Sell =>
      var owned := t.owned + rc.order.assets;
      if HasDuplicate(owned) then Err("Each asset may only be on offer once")
      else Ok(t.(outstandingSells := RemoveOrder(t.outstandingSells, rc.order.id), owned := owned, money := t.money + rc.returned))
  }

  /** Delivers one receipt to its trader. */
  function ApplyReceipt(t: Trader, rc: Receipt): (r: Result<Trader>)
    ensures rc.FulfilledReceipt? ==> r.Ok?
    ensures rc.CancelledReceipt? && rc.order.side == Buy ==> r.Ok?
    ensures rc.CancelledReceipt? && rc.order.side == Sell ==> (r.Ok? <==> !HasDuplicate(t.owned + rc.order.assets))
    ensures r.Ok? ==> SameBot(r.value, t) && r.value.lastObservedPrice == t.lastObservedPrice
    ensures r.Ok? ==> r.value.money == t.money + rc.returned
    ensures r.Ok? && rc.order.side == Buy ==>
      r.value.outstandingBuys == RemoveOrder(t.outstandingBuys, rc.order.id) &&
      r.value.outstandingSells == t.outstandingSells
    ensures r.Ok? && rc.order.side == Sell ==>
      r.value.outstandingSells == RemoveOrder(t.outstandingSells, rc.order.id) &&
      r.value.outstandingBuys == t.outstandingBuys
  {
    match rc
    case FulfilledReceipt(_, _, _, _, _) => Ok(OnOrderFulfilled(t, rc))
    case CancelledReceipt(_, _) => OnOrderCancelled(t, rc)
  }

  /** Delivers receipts in order. */
  function ApplyReceipts(t: Trader, rcs: seq<Receipt>): Result<Trader>
    decreases |rcs|
  {
    if |rcs| == 0 then Ok(t)
    else
      var t1 :- ApplyReceipt(t, rcs[0]);
      ApplyReceipts(t1, rcs[1..])
  }

  /** Dispose: forgets every outstanding order and nothing else. */
  function Dispose(t: Trader): (r: Trader)
    ensures r.outstandingBuys == [] && r.outstandingSells == []
    ensures r.money == t.money && r.owned == t.owned && r.realizedProfit == t.realizedProfit
    ensures r.completed == t.completed && r.transactionCost == t.transactionCost && r.name == t.name
  {
    t.(outstandingBuys := [], outstandingSells := [])
  }

  // ---------------------------------------------------------------------
  // Submitting orders

  /** Freshly placed orders: valid, live, owned by `owner`, numbered from
      `nextId` and living ten ticks. */
  ghost predicate Fresh(placed: seq<Order>, owner: nat, nextId: nat) {
    forall i :: 0 <= i < |placed| ==>
      Valid(placed[i]) && placed[i].Live() && placed[i].owner == owner &&
      placed[i].id == nextId + i && placed[i].ticksToLive == OrderTicksToLive
  }

  lemma FreshConcat(a: seq<Order>, b: seq<Order>, owner: nat, nextId: nat)
    requires Fresh(a, owner, nextId) && Fresh(b, owner, nextId + |a|)
    ensures Fresh(a + b, owner, nextId)
  {
    forall i | 0 <= i < |a + b|
      ensures (a + b)[i].id == nextId + i
    {
      if i >= |a| {
        assert (a + b)[i] == b[i - |a|];
      }
    }
  }

  lemma FreshCons(o: Order, rest: seq<Order>, owner: nat, nextId: nat)
    requires Valid(o) && o.Live() && o.owner == owner && o.id == nextId && o.ticksToLive == OrderTicksToLive
    requires Fresh(rest, owner, nextId + 1)
    ensures Fresh([o] + rest, owner, nextId)
  {
    forall i | 1 <= i < |[o] + rest|
      ensures ([o] + rest)[i] == rest[i - 1]
    {
    }
  }

  /** Every order is on the given side. */
  ghost predicate AllSide(placed: seq<Order>, side: Side) {
    forall i :: 0 <= i < |placed| ==> placed[i].side == side
  }

  /** Every order is on the given side and for the given asset type. */
  ghost predicate AllOf(placed: seq<Order>, side: Side, assetType: AssetType) {
    AllSide(placed, side) && forall i :: 0 <= i < |placed| ==> placed[i].assetType == assetType
  }

  lemma AllSideCons(o: Order, rest: seq<Order>, side: Side)
    requires o.side == side && AllSide(rest, side)
    ensures AllSide([o] + rest, side)
  {
    forall i | 1 <= i < |[o] + rest|
      ensures ([o] + rest)[i] == rest[i - 1]
    {
    }
  }

  lemma AllOfCons(o: Order, rest: seq<Order>, side: Side, assetType: AssetType)
    requires o.side == side && o.assetType == assetType && AllOf(rest, side, assetType)
    ensures AllOf([o] + rest, side, assetType)
  {
    forall i | 1 <= i < |[o] + rest|
      ensures ([o] + rest)[i] == rest[i - 1]
    {
    }
  }

  /** Sell offers with a non-empty asset list become ten-tick sell orders whose
      assets leave holdings at once; empty offers are skipped. The new orders
      consign exactly the offered assets, offer by offer, and holdings lose
      every copy of each of them and keep the rest in order. */
  function PlaceSellOffers(t: Trader, owner: nat, nextId: nat, offers: seq<SellOffer>): (r: Result<(Trader, seq<Order>)>)
    ensures r.Ok? ==>
      r.value.0 == t.(owned := r.value.0.owned, outstandingSells := t.outstandingSells + r.value.1)
    ensures r.Ok? ==> |r.value.1| <= |offers|
    ensures r.Ok? ==> Fresh(r.value.1, owner, nextId) && AllSide(r.value.1, Sell)
    ensures (forall i :: 0 <= i < |offers| ==> |offers[i].assets| == 0) ==> r == Ok((t, []))
    ensures r.Ok? ==> ConsignedAssets(r.value.1) == OfferedAssets(offers)
    ensures r.Ok? ==> r.value.0.owned == RemoveAssets(t.owned, OfferedAssets(offers))
    decreases |offers|
  {
    if |offers| == 0 then
      RemoveNothing(t.owned);
      Ok((t, []))
    else
      var offer := offers[0];
      assert OfferedAssets(offers) == offer.assets + OfferedAssets(offers[1..]);
      if |offer.assets| == 0 then
        assert OfferedAssets(offers) == OfferedAssets(offers[1..]);
        PlaceSellOffers(t, owner, nextId, offers[1..])
      else
        var order :- NewSellOrder(nextId, owner, offer.assets, OrderTicksToLive, offer.price);
        var t1 := t.(outstandingSells := t.outstandingSells + [order], owned := RemoveAssets(t.owned, offer.assets));
        var (t2, rest) :- PlaceSellOffers(t1, owner, nextId + 1, offers[1..]);
        FreshCons(order, rest, owner, nextId);
        AllSideCons(order, rest, Sell);
        ConcatAssoc(t.outstandingSells, [order], rest);
        ConsignedPrepend(order, rest);
        RemoveTwice(t.owned, offer.assets, OfferedAssets(offers[1..]));
        Ok((t2, [order] + rest))
  }

  /** Every asset the offers name, offer by offer. */
  function OfferedAssets(offers: seq<SellOffer>): seq<Asset>
    decreases |offers|
  {
    if |offers| == 0 then [] else offers[0].assets + OfferedAssets(offers[1..])
  }

  lemma {:induction false} RemoveNothing(owned: seq<Asset>)
    ensures RemoveAssets(owned, []) == owned
    decreases |owned|
  {
    if |owned| > 0 {
      RemoveNothing(owned[1..]);
    }
  }

  /** Removing one list and then another removes their concatenation. */
  lemma {:induction false} RemoveTwice(owned: seq<Asset>, a: seq<Asset>, b: seq<Asset>)
    ensures RemoveAssets(RemoveAssets(owned, a), b) == RemoveAssets(owned, a + b)
    decreases |owned|
  {
    if |owned| > 0 {
      RemoveTwice(owned[1..], a, b);
      var once := RemoveAssets(owned[1..], a);
      if owned[0] !in a {
        assert RemoveAssets(owned, a) == [owned[0]] + once;
        assert ([owned[0]] + once)[1..] == once;
      }
    }
  }

  lemma ConsignedPrepend(o: Order, rest: seq<Order>)
    ensures ConsignedAssets([o] + rest) == o.assets + ConsignedAssets(rest)
  {
    ConsignedCons([o] + rest);
    assert ([o] + rest)[1..] == rest;
  }

  /** Buy offers with a positive amount become ten-tick buy orders whose
      reserve leaves cash at once; a placement that would make cash negative
      fails. Offers with amount ≤ 0 are skipped. */
  function PlaceBuyOffers(t: Trader, owner: nat, nextId: nat, offers: seq<BuyOffer>): (r: Result<(Trader, seq<Order>)>)
    ensures r.Ok? ==> r.value.0 == t.(money := r.value.0.money, outstandingBuys := t.outstandingBuys + r.value.1)
    ensures r.Ok? ==>
      r.value.0.money + SumReserved(r.value.0.outstandingBuys) == t.money + SumReserved(t.outstandingBuys)
    ensures r.Ok? ==> (|r.value.1| > 0 ==> r.value.0.money >= 0.0) && |r.value.1| <= |offers|
    ensures r.Ok? ==> Fresh(r.value.1, owner, nextId) && AllOf(r.value.1, Buy, t.assetType)
    ensures (forall i :: 0 <= i < |offers| ==> offers[i].amount <= 0) ==> r == Ok((t, []))
    decreases |offers|
  {
    if |offers| == 0 then Ok((t, []))
    else
      var offer := offers[0];
      if offer.amount <= 0 then PlaceBuyOffers(t, owner, nextId, offers[1..])
      else
        var order :- NewBuyOrder(nextId, owner, t.assetType, OrderTicksToLive, offer.price, offer.amount);
        var money := t.money - order.reserved;
        if money < 0.0 then Err("cash went negative")
        else
          var t1 := t.(money := money, outstandingBuys := t.outstandingBuys + [order]);
          SumReservedSnoc(t.outstandingBuys, order);
          var (t2, rest) :- PlaceBuyOffers(t1, owner, nextId + 1, offers[1..]);
          ConcatAssoc(t.outstandingBuys, [order], rest);
          FreshCons(order, rest, owner, nextId);
          AllOfCons(order, rest, Buy, t.assetType);
          Ok((t2, [order] + rest))
  }

  lemma SumReservedSnoc(orders: seq<Order>, o: Order)
    ensures SumReserved(orders + [o]) == SumReserved(orders) + o.reserved
  {
    assert (orders + [o])[..|orders|] == orders;
  }

  /** The strategies' "nothing to do" replies never become orders. */
  lemma SentinelsPlaceNothing(t: Trader, owner: nat, nextId: nat)
    ensures PlaceBuyOffers(t, owner, nextId, [BuySentinel]) == Ok((t, []))
    ensures PlaceSellOffers(t, owner, nextId, [SellSentinel]) == Ok((t, []))
  {
  }

  /** What SubmitOrders hands to the marketplace: the updated trader, the new
      orders (sells first, then buys) and the receipts of the orders its
      strategies cancelled. */
  datatype Submission = Submission(trader: Trader, orders: seq<Order>, cancellations: seq<Receipt>)

  /** SubmitOrders. The sell strategy runs first and all of its offers become
      orders before the buy strategy is asked, with the cash and holdings as
      they then stand. Afterwards the bot holds what it held when its sell rule
      ran, less the assets that rule offered; buying changes no holdings until
      an order fills. Each outstanding list keeps the orders no CancelOld… rule
      withdrew and ends with the newly placed ones, and cash plus buy reserves
      changes only by what cancelled sell orders give back. */
  function SubmitOrders(t: Trader, owner: nat, nextId: nat, lastPrice: AssetPrice, history: seq<AssetPrice>): (r: Result<Submission>)
    ensures r.Ok? ==> r.value.trader.lastObservedPrice == lastPrice.price && SameBot(r.value.trader, t)
    ensures r.Ok? ==> Fresh(r.value.orders, owner, nextId)
    ensures r.Ok? ==> SellsFirst(r.value.orders)
    ensures (r.Ok? && FilesBySide(t)) ==>
      var sd := RunSellStrategy(t.sellStrategy, lastPrice.price, history, t.owned, t.outstandingSells);
      r.value.trader.owned == RemoveAssets(HeldBeforeSelling(t), OfferedAssets(sd.offers))
    ensures (r.Ok? && FilesBySide(t)) ==>
      var tr := r.value.trader;
      KeptSells(t) <= tr.outstandingSells && KeptBuys(t) <= tr.outstandingBuys &&
      r.value.orders == tr.outstandingSells[|KeptSells(t)|..] + tr.outstandingBuys[|KeptBuys(t)|..]
    ensures (r.Ok? && FilesBySide(t)) ==>
      r.value.trader.money + SumReserved(r.value.trader.outstandingBuys) ==
        t.money + SumReserved(t.outstandingBuys) + SumReserved(CancelledSells(t))
  {
    var t1 := t.(lastObservedPrice := lastPrice.price);
    var sd := RunSellStrategy(t1.sellStrategy, t1.lastObservedPrice, history, t1.owned, t1.outstandingSells);
    var t2 :- ApplyReceipts(t1, sd.cancellations);
    var (t3, sells) :- PlaceSellOffers(t2, owner, nextId, sd.offers);
    var bd := RunBuyStrategy(t3.buyStrategy, t3.money, t3.lastObservedPrice, history, t3.outstandingBuys);
    var t4 :- ApplyReceipts(t3, bd.cancellations);
    var (t5, buys) :- PlaceBuyOffers(t4, owner, nextId + |sells|, bd.offers);
    ApplyReceiptsKeepsIdentity(t1, sd.cancellations);
    ApplyReceiptsKeepsIdentity(t3, bd.cancellations);
    SellPhaseHoldings(t1, history);
    BuyPhaseHoldings(t3, history);
    FreshConcat(sells, buys, owner, nextId);
    SellsThenBuys(sells, buys);
    assert FilesBySide(t) ==> t5.outstandingSells == KeptSells(t) + sells && t5.outstandingBuys == KeptBuys(t) + buys;
    Ok(Submission(t5, sells + buys, sd.cancellations + bd.cancellations))
  }

  /** The two bots are the same participant: same name, asset type and strategies. */
  predicate SameBot(a: Trader, b: Trader) {
    a.name == b.name && a.assetType == b.assetType && a.buyStrategy == b.buyStrategy && a.sellStrategy == b.sellStrategy
  }

  /** Position by position, the same participants. */
  predicate SameBots(a: seq<Trader>, b: seq<Trader>) {
    |a| == |b| && forall i :: 0 <= i < |a| ==> SameBot(a[i], b[i])
  }

  /** The bot files sell orders only under outstandingSells and buy orders only
      under outstandingBuys, wherever a CancelOld… rule will withdraw them. */
  ghost predicate FilesBySide(t: Trader) {
    (t.sellStrategy.cancelOld ==> AllSide(t.outstandingSells, Sell)) &&
    (t.buyStrategy.cancelOld ==> AllSide(t.outstandingBuys, Buy))
  }

  /** The outstanding orders the strategies leave in place. */
  function KeptSells(t: Trader): seq<Order> {
    if t.sellStrategy.cancelOld then [] else t.outstandingSells
  }

  function KeptBuys(t: Trader): seq<Order> {
    if t.buyStrategy.cancelOld then [] else t.outstandingBuys
  }

  /** The outstanding sell orders a CancelOld… sell strategy withdraws. */
  function CancelledSells(t: Trader): seq<Order> {
    if t.sellStrategy.cancelOld then t.outstandingSells else []
  }

  /** The receipts of cancelling each of the given orders, in order. */
  ghost predicate CancelReceipts(rcs: seq<Receipt>, orders: seq<Order>) {
    |rcs| == |orders| &&
    forall i :: 0 <= i < |orders| ==> rcs[i] == CancelledReceipt(orders[i].(isCancelled := true), orders[i].reserved)
  }

  /** What the bot holds when its sell rule runs: a CancelOld… sell strategy
      first takes back the assets of every outstanding sell order. */
  function HeldBeforeSelling(t: Trader): seq<Asset> {
    if t.sellStrategy.cancelOld then t.owned + ConsignedAssets(t.outstandingSells) else t.owned
  }

  lemma SellPhaseHoldings(t: Trader, history: seq<AssetPrice>)
    ensures var sd := RunSellStrategy(t.sellStrategy, t.lastObservedPrice, history, t.owned, t.outstandingSells);
      (ApplyReceipts(t, sd.cancellations).Ok? && (t.sellStrategy.cancelOld ==> AllSide(t.outstandingSells, Sell))) ==>
        var t' := ApplyReceipts(t, sd.cancellations).value;
        t'.owned == HeldBeforeSelling(t) && t'.outstandingBuys == t.outstandingBuys &&
        t'.outstandingSells == KeptSells(t) && t'.money == t.money + SumReserved(CancelledSells(t))
  {
    var sd := RunSellStrategy(t.sellStrategy, t.lastObservedPrice, history, t.owned, t.outstandingSells);
    if t.sellStrategy.cancelOld && AllSide(t.outstandingSells, Sell) {
      SellCancellationsReturnAssets(t, t.outstandingSells, sd.cancellations);
      assert t.outstandingSells == t.outstandingSells + [];
      SellCancellationsClearBook(t, t.outstandingSells, sd.cancellations, []);
    } else if !t.sellStrategy.cancelOld {
      assert CancelledSells(t) == [];
    }
  }

  lemma BuyPhaseHoldings(t: Trader, history: seq<AssetPrice>)
    ensures var bd := RunBuyStrategy(t.buyStrategy, t.money, t.lastObservedPrice, history, t.outstandingBuys);
      (t.buyStrategy.cancelOld ==> AllSide(t.outstandingBuys, Buy)) ==>
        var t' := ApplyReceipts(t, bd.cancellations);
        t'.Ok? && t'.value.owned == t.owned && t'.value.outstandingSells == t.outstandingSells &&
        t'.value.outstandingBuys == KeptBuys(t) &&
        t'.value.money + SumReserved(t'.value.outstandingBuys) == t.money + SumReserved(t.outstandingBuys)
  {
    var bd := RunBuyStrategy(t.buyStrategy, t.money, t.lastObservedPrice, history, t.outstandingBuys);
    if t.buyStrategy.cancelOld && AllSide(t.outstandingBuys, Buy) {
      BuyCancellationsKeepHoldings(t, t.outstandingBuys, bd.cancellations);
      assert t.outstandingBuys == t.outstandingBuys + [];
      BuyCancellationsClearBook(t, t.outstandingBuys, bd.cancellations, []);
    }
  }

  /** Cancelling the front orders of the outstanding sell list, in order,
      leaves the rest of the list and adds their reserves to cash. */
  lemma {:induction false} SellCancellationsClearBook(t: Trader, orders: seq<Order>, rcs: seq<Receipt>, rest: seq<Order>)
    requires AllSide(orders, Sell) && CancelReceipts(rcs, orders) && t.outstandingSells == orders + rest
    ensures ApplyReceipts(t, rcs).Ok? ==>
      ApplyReceipts(t, rcs).value.outstandingSells == rest &&
      ApplyReceipts(t, rcs).value.money == t.money + SumReserved(orders)
    decreases |orders|
  {
    if |orders| == 0 {
      assert orders + rest == rest;
    } else if ApplyReceipt(t, rcs[0]).Ok? {
      var t1 := ApplyReceipt(t, rcs[0]).value;
      assert t1.outstandingSells == orders[1..] + rest by {
        assert (orders + rest)[0].id == rcs[0].order.id;
        assert (orders + rest)[1..] == orders[1..] + rest;
      }
      assert AllSide(orders[1..], Sell) && CancelReceipts(rcs[1..], orders[1..]) by {
        forall i | 0 <= i < |orders| - 1
          ensures orders[1..][i] == orders[i + 1] && rcs[1..][i] == rcs[i + 1]
        {
        }
      }
      SellCancellationsClearBook(t1, orders[1..], rcs[1..], rest);
      SumReservedRemove(orders, 0);
      assert orders[..0] + orders[1..] == orders[1..];
    }
  }

  /** Cancelling the front orders of the outstanding buy list, in order,
      leaves the rest of the list and moves their reserves back into cash. */
  lemma {:induction false} BuyCancellationsClearBook(t: Trader, orders: seq<Order>, rcs: seq<Receipt>, rest: seq<Order>)
    requires AllSide(orders, Buy) && CancelReceipts(rcs, orders) && t.outstandingBuys == orders + rest
    ensures ApplyReceipts(t, rcs).Ok?
    ensures ApplyReceipts(t, rcs).value.outstandingBuys == rest &&
      ApplyReceipts(t, rcs).value.outstandingSells == t.outstandingSells &&
      ApplyReceipts(t, rcs).value.money == t.money + SumReserved(orders)
    decreases |orders|
  {
    if |orders| == 0 {
      assert orders + rest == rest;
    } else {
      var t1 := ApplyReceipt(t, rcs[0]).value;
      assert t1.outstandingBuys == orders[1..] + rest by {
        assert (orders + rest)[0].id == rcs[0].order.id;
        assert (orders + rest)[1..] == orders[1..] + rest;
      }
      assert AllSide(orders[1..], Buy) && CancelReceipts(rcs[1..], orders[1..]) by {
        forall i | 0 <= i < |orders| - 1
          ensures orders[1..][i] == orders[i + 1] && rcs[1..][i] == rcs[i + 1]
        {
        }
      }
      assert t1.money == t.money + orders[0].reserved;
      BuyCancellationsClearBook(t1, orders[1..], rcs[1..], rest);
      assert ApplyReceipts(t, rcs) == ApplyReceipts(t1, rcs[1..]);
      SumReservedRemove(orders, 0);
      assert orders[..0] + orders[1..] == orders[1..];
    }
  }

  /** Cancelled sell orders give their assets back in order. */
  lemma {:induction false} SellCancellationsReturnAssets(t: Trader, orders: seq<Order>, rcs: seq<Receipt>)
    requires AllSide(orders, Sell) && CancelReceipts(rcs, orders)
    ensures ApplyReceipts(t, rcs).Ok? ==>
      ApplyReceipts(t, rcs).value.owned == t.owned + ConsignedAssets(orders) &&
      ApplyReceipts(t, rcs).value.outstandingBuys == t.outstandingBuys &&
      ApplyReceipts(t, rcs).value.buyStrategy == t.buyStrategy &&
      ApplyReceipts(t, rcs).value.lastObservedPrice == t.lastObservedPrice
    decreases |orders|
  {
    if |orders| == 0 {
      assert ConsignedAssets(orders) == [];
      assert t.owned + [] == t.owned;
    } else if ApplyReceipt(t, rcs[0]).Ok? {
      var t1 := ApplyReceipt(t, rcs[0]).value;
      assert t1.owned == t.owned + orders[0].assets;
      assert AllSide(orders[1..], Sell) && CancelReceipts(rcs[1..], orders[1..]) by {
        forall i | 0 <= i < |orders| - 1
          ensures orders[1..][i] == orders[i + 1] && rcs[1..][i] == rcs[i + 1]
        {
        }
      }
      SellCancellationsReturnAssets(t1, orders[1..], rcs[1..]);
      assert ApplyReceipts(t, rcs) == ApplyReceipts(t1, rcs[1..]);
      ConsignedCons(orders);
      assert t.owned + orders[0].assets + ConsignedAssets(orders[1..]) == t.owned + ConsignedAssets(orders);
    }
  }

  /** Cancelled buy orders hand back money and leave holdings alone. */
  lemma {:induction false} BuyCancellationsKeepHoldings(t: Trader, orders: seq<Order>, rcs: seq<Receipt>)
    requires AllSide(orders, Buy) && CancelReceipts(rcs, orders)
    ensures ApplyReceipts(t, rcs).Ok? && ApplyReceipts(t, rcs).value.owned == t.owned
    decreases |orders|
  {
    if |orders| > 0 {
      var t1 := ApplyReceipt(t, rcs[0]).value;
      assert t1.owned == t.owned;
      assert AllSide(orders[1..], Buy) && CancelReceipts(rcs[1..], orders[1..]) by {
        forall i | 0 <= i < |orders| - 1
          ensures orders[1..][i] == orders[i + 1] && rcs[1..][i] == rcs[i + 1]
        {
        }
      }
      BuyCancellationsKeepHoldings(t1, orders[1..], rcs[1..]);
    }
  }

  /** No sell order follows a buy order. */
  ghost predicate SellsFirst(orders: seq<Order>) {
    forall i, j :: 0 <= i < j < |orders| && orders[i].side == Buy ==> orders[j].side == Buy
  }

  lemma SellsThenBuys(sells: seq<Order>, buys: seq<Order>)
    requires AllSide(sells, Sell) && AllSide(buys, Buy)
    ensures SellsFirst(sells + buys)
  {
  }

  lemma {:induction false} ApplyReceiptsKeepsIdentity(t: Trader, rcs: seq<Receipt>)
    ensures ApplyReceipts(t, rcs).Ok? ==>
      var t' := ApplyReceipts(t, rcs).value;
      t'.name == t.name && t'.lastObservedPrice == t.lastObservedPrice && t'.assetType == t.assetType &&
      t'.buyStrategy == t.buyStrategy && t'.sellStrategy == t.sellStrategy
    decreases |rcs|
  {
    if |rcs| > 0 && ApplyReceipt(t, rcs[0]).Ok? {
      ApplyReceiptsKeepsIdentity(ApplyReceipt(t, rcs[0]).value, rcs[1..]);
    }
  }

  // ---------------------------------------------------------------------
  // Conservation

  lemma {:induction false} SumReservedRemove(orders: seq<Order>, i: int)
    requires 0 <= i < |orders|
    ensures SumReserved(orders[..i] + orders[i + 1..]) == SumReserved(orders) - orders[i].reserved
    decreases |orders|
  {
    var n := |orders|;
    if i == n - 1 {
      assert orders[..i] + orders[i + 1..] == orders[..n - 1];
    } else {
      var prefix := orders[..n - 1];
      SumReservedRemove(prefix, i);
      assert orders[..i] + orders[i + 1..] == (prefix[..i] + prefix[i + 1..]) + [orders[n - 1]];
      SumReservedSnoc(prefix[..i] + prefix[i + 1..], orders[n - 1]);
    }
  }

  /** Cancelling an outstanding buy order moves its reserve back into cash:
      cash plus outstanding reserves is unchanged. */
  lemma CancelBuyConserves(t: Trader, rc: Receipt, i: int)
    requires rc.CancelledReceipt? && rc.order.side == Buy
    requires 0 <= i < |t.outstandingBuys| && t.outstandingBuys[i].id == rc.order.id
    requires forall j :: 0 <= j < i ==> t.outstandingBuys[j].id != rc.order.id
    requires rc.returned == t.outstandingBuys[i].reserved
    ensures var t' := OnOrderCancelled(t, rc).value;
      t'.money + SumReserved(t'.outstandingBuys) == t.money + SumReserved(t.outstandingBuys)
  {
    SumReservedRemove(t.outstandingBuys, i);
  }

  /** Over a buy order's life — placement and then settlement — cash falls by
      exactly the cost of the assets plus the courtage, and the minted assets
      join holdings. */
  lemma BuyLifecycleCash(t: Trader, owner: nat, id: nat, offer: BuyOffer, t1: Trader, placed: seq<Order>,
                         f: AssetFactory, settlement: AssetPrice, courtage: real)
    requires t.outstandingBuys == [] && offer.amount > 0
    requires PlaceBuyOffers(t, owner, id, [offer]) == Ok((t1, placed))
    requires |placed| > 0 && BuySettles(placed[0], settlement.price)
    ensures FulfillOrder(placed[0], f, settlement, courtage).Ok?
    ensures var rc := FulfillOrder(placed[0], f, settlement, courtage).value.2;
      var t2 := OnOrderFulfilled(t1, rc);
      t2.money == t.money - offer.amount as real * settlement.price - courtage &&
      t2.outstandingBuys == [] && |t2.owned| == |t.owned| + offer.amount
  {
    PlaceSingleBuy(t, owner, id, offer);
    SettleSingleBuy(t1, placed[0], offer.amount, f, settlement, courtage);
  }

  /** Settling the one outstanding buy order refunds what is left of its
      reserve and adds the minted assets to holdings. */
  lemma SettleSingleBuy(t: Trader, o: Order, amount: int, f: AssetFactory, settlement: AssetPrice, courtage: real)
    requires t.outstandingBuys == [o] && Valid(o) && o.side == Buy && BuySettles(o, settlement.price)
    requires o.amount == amount
    ensures FulfillOrder(o, f, settlement, courtage).Ok?
    ensures var rc := FulfillOrder(o, f, settlement, courtage).value.2;
      var t2 := OnOrderFulfilled(t, rc);
      t2.money == t.money + o.reserved - amount as real * settlement.price - courtage &&
      t2.outstandingBuys == [] && |t2.owned| == |t.owned| + amount
  {
    BuySettlementWithinReserve(o, settlement);
    var rc := FulfillOrder(o, f, settlement, courtage).value.2;
    assert RemoveOrder([o], o.id) == [];
  }

  /** Placing one positive buy offer with nothing outstanding: one order, its
      reserve taken from cash, holdings untouched. */
  lemma PlaceSingleBuy(t: Trader, owner: nat, id: nat, offer: BuyOffer)
    requires t.outstandingBuys == [] && offer.amount > 0
    requires PlaceBuyOffers(t, owner, id, [offer]).Ok?
    ensures var (t1, placed) := PlaceBuyOffers(t, owner, id, [offer]).value;
      |placed| == 1 && t1.outstandingBuys == placed && t1.owned == t.owned &&
      t1.money == t.money - placed[0].reserved &&
      Valid(placed[0]) && placed[0].side == Buy && placed[0].amount == offer.amount
  {
    var (t1, placed) := PlaceBuyOffers(t, owner, id, [offer]).value;
    var order := NewBuyOrder(id, owner, t.assetType, OrderTicksToLive, offer.price, offer.amount).value;
    assert [offer][1..] == [];
    assert placed == [order];
    assert SumReserved(placed) == order.reserved by {
      assert placed[..0] == [];
    }
  }

  /** Over a sell order's settlement, the realized profit grows by the
      proceeds less the purchase prices of the consigned assets, and one
      completed transaction is logged per asset. */
  lemma SellProfitIsProceedsLessCost(t: Trader, o: Order, f: AssetFactory, settlement: AssetPrice, courtage: real)
    requires Valid(o) && o.side == Sell
    ensures var (_, _, rc) := FulfillOrder(o, f, settlement, courtage).value;
      var t' := OnOrderFulfilled(t, rc);
      t'.realizedProfit == t.realizedProfit + rc.returned - SumBought(o.assets) &&
      t'.money == t.money + rc.returned &&
      |t'.completed| == |t.completed| + |o.assets|
  {
    var res := FulfillOrder(o, f, settlement, courtage);
    assert res.Ok?;
    var (_, _, rc) := res.value;
    assert rc.transferred == o.assets && rc.order == o.(isFulfilled := true);
    assert rc.returned + courtage == o.amount as real * settlement.price;
    assert rc.finalPrice == settlement && rc.courtage == courtage;
    GainIsValueLessCost(o.assets, settlement.price);
  }

  /** Cancelling a sell order whose assets are not already held gives them
      back without creating duplicates. */
  lemma CancelSellRestoresHoldings(t: Trader, rc: Receipt)
    requires rc.CancelledReceipt? && rc.order.side == Sell
    requires NoDuplicates(t.owned) && NoDuplicates(rc.order.assets)
    requires forall a :: a in rc.order.assets ==> a !in t.owned
    ensures OnOrderCancelled(t, rc).Ok?
    ensures multiset(OnOrderCancelled(t, rc).value.owned) == multiset(t.owned) + multiset(rc.order.assets)
  {
    var s := t.owned + rc.order.assets;
    var n := |t.owned|;
    forall i, j | 0 <= i < j < |s|
      ensures s[i] != s[j]
    {
      if j < n {
        assert s[i] == t.owned[i] && s[j] == t.owned[j];
      } else if i >= n {
        assert s[i] == rc.order.assets[i - n] && s[j] == rc.order.assets[j - n];
      } else {
        assert s[i] in t.owned && s[j] in rc.order.assets;
      }
    }
  }

  /** Placing buy orders does not change a trader's total assets. */
  lemma {:induction false} PlacingBuysKeepsTotal(t: Trader, owner: nat, nextId: nat, offers: seq<BuyOffer>)
    requires PlaceBuyOffers(t, owner, nextId, offers).Ok?
    ensures CurrentTotalAssets(PlaceBuyOffers(t, owner, nextId, offers).value.0) == CurrentTotalAssets(t)
  {
    var t' := PlaceBuyOffers(t, owner, nextId, offers).value.0;
    SameHoldingsSameTotal(t', t);
  }

  /** Placing sell orders for assets the trader holds, none named twice, does
      not change its total assets: each consigned asset still counts at the
      last observed price. */
  lemma PlacingSellsKeepsTotal(t: Trader, owner: nat, nextId: nat, offers: seq<SellOffer>)
    requires PlaceSellOffers(t, owner, nextId, offers).Ok?
    requires NoDuplicates(t.owned) && NoDuplicates(OfferedAssets(offers))
    requires forall a :: a in OfferedAssets(offers) ==> a in t.owned
    ensures CurrentTotalAssets(PlaceSellOffers(t, owner, nextId, offers).value.0) == CurrentTotalAssets(t)
  {
    var res := PlaceSellOffers(t, owner, nextId, offers).value;
    ConsigningKeepsTotal(t, res.0, res.1, OfferedAssets(offers));
  }

  lemma ConsigningKeepsTotal(t: Trader, t': Trader, placed: seq<Order>, offered: seq<Asset>)
    requires t' == t.(owned := RemoveAssets(t.owned, offered), outstandingSells := t.outstandingSells + placed)
    requires ConsignedAssets(placed) == offered
    requires NoDuplicates(t.owned) && NoDuplicates(offered)
    requires forall a :: a in offered ==> a in t.owned
    ensures CurrentTotalAssets(t') == CurrentTotalAssets(t)
  {
    OwnedShrinks(t.owned, offered);
    SellsGrow(t.outstandingSells, placed, offered);
    assert |t'.owned| + ConsignedCount(t'.outstandingSells) == |t.owned| + ConsignedCount(t.outstandingSells);
    SameUnitsSameTotal(t', t);
  }

  lemma SameUnitsSameTotal(t': Trader, t: Trader)
    requires t'.money == t.money && t'.outstandingBuys == t.outstandingBuys && t'.lastObservedPrice == t.lastObservedPrice
    requires |t'.owned| + ConsignedCount(t'.outstandingSells) == |t.owned| + ConsignedCount(t.outstandingSells)
    ensures CurrentTotalAssets(t') == CurrentTotalAssets(t)
  {
    TotalByUnits(t');
    TotalByUnits(t);
  }

  /** The valuation counts held and consigned units alike. */
  lemma TotalByUnits(t: Trader)
    ensures CurrentTotalAssets(t) ==
      t.money + SumReserved(t.outstandingBuys) + (|t.owned| + ConsignedCount(t.outstandingSells)) as real * t.lastObservedPrice
  {
    var p := t.lastObservedPrice;
    var x, y := |t.owned|, ConsignedCount(t.outstandingSells);
    assert x as real * p + y as real * p == (x + y) as real * p;
  }

  /** The units the valuation counts are exactly the assets the bot would
      hold after cancelling all its sell orders. */
  lemma ValuedUnitsAreHoldingsAfterCancel(t: Trader)
    ensures |t.owned| + ConsignedCount(t.outstandingSells) ==
      |CancelOutstandingSellOrdersAndGetAllAssets(t.owned, t.outstandingSells).0|
  {
    ConsignedCountIsLength(t.outstandingSells);
  }

  /** The bot's total is what it would own after withdrawing every order:
      its cash plus the buy reserves, and, at the last observed price, the
      held assets followed by every consigned one, which is the list that
      CancelOutstandingSellOrdersAndGetAllAssets restores. */
  lemma TotalIsWithdrawnValue(t: Trader)
    ensures CurrentTotalAssets(t) ==
      t.money + SumReserved(t.outstandingBuys) +
      |t.owned + ConsignedAssets(t.outstandingSells)| as real * t.lastObservedPrice
  {
    ConsignedCountIsLength(t.outstandingSells);
    TotalByUnits(t);
  }

  lemma OwnedShrinks(owned: seq<Asset>, offered: seq<Asset>)
    requires NoDuplicates(owned) && NoDuplicates(offered)
    requires forall a :: a in offered ==> a in owned
    ensures |RemoveAssets(owned, offered)| + |offered| == |owned|
  {
    RemoveCount(owned, offered);
    SubsetSelection(owned, offered);
    DistinctSetSize(offered);
  }

  lemma SellsGrow(sells: seq<Order>, placed: seq<Order>, offered: seq<Asset>)
    requires ConsignedAssets(placed) == offered
    ensures ConsignedCount(sells + placed) == ConsignedCount(sells) + |offered|
  {
    ConsignedCountConcat(sells, placed);
    ConsignedCountIsLength(placed);
  }

  /** With distinct holdings, RemoveAll drops one holding per distinct listed
      asset that is held. */
  lemma {:induction false} RemoveCount(owned: seq<Asset>, assets: seq<Asset>)
    requires NoDuplicates(owned)
    ensures |RemoveAssets(owned, assets)| + |set a | a in owned && a in assets| == |owned|
    decreases |owned|
  {
    if |owned| > 0 {
      var tail := owned[1..];
      assert NoDuplicates(tail) by {
        forall i, j | 0 <= i < j < |tail|
          ensures tail[i] != tail[j]
        {
          assert tail[i] == owned[i + 1] && tail[j] == owned[j + 1];
        }
      }
      RemoveCount(tail, assets);
      var hit := set a | a in owned && a in assets;
      var hitTail := set a | a in tail && a in assets;
      assert owned == [owned[0]] + tail;
      assert owned[0] !in tail by {
        forall j | 0 <= j < |tail|
          ensures tail[j] != owned[0]
        {
          assert tail[j] == owned[j + 1];
        }
      }
      if owned[0] in assets {
        assert hit == hitTail + {owned[0]};
      } else {
        assert hit == hitTail;
      }
    }
  }

  /** When every listed asset is held, the held-and-listed set is the listed set. */
  lemma SubsetSelection(owned: seq<Asset>, assets: seq<Asset>)
    requires forall a :: a in assets ==> a in owned
    ensures (set a | a in owned && a in assets) == (set a | a in assets)
  {
  }

  lemma {:induction false} DistinctSetSize(s: seq<Asset>)
    requires NoDuplicates(s)
    ensures |set a | a in s| == |s|
    decreases |s|
  {
    if |s| > 0 {
      var init := s[..|s| - 1];
      assert NoDuplicates(init) by {
        forall i, j | 0 <= i < j < |init|
          ensures init[i] != init[j]
        {
          assert init[i] == s[i] && init[j] == s[j];
        }
      }
      DistinctSetSize(init);
      assert s == init + [s[|s| - 1]];
      assert s[|s| - 1] !in init by {
        forall j | 0 <= j < |init|
          ensures init[j] != s[|s| - 1]
        {
          assert init[j] == s[j];
        }
      }
      assert (set a | a in s) == (set a | a in init) + {s[|s| - 1]};
    }
  }

  lemma {:induction false} ConsignedCountConcat(a: seq<Order>, b: seq<Order>)
    ensures ConsignedCount(a + b) == ConsignedCount(a) + ConsignedCount(b)
    decreases |b|
  {
    if |b| > 0 {
      var init := b[..|b| - 1];
      ConsignedCountConcat(a, init);
      assert (a + b)[..|a + b| - 1] == a + init;
      assert (a + b)[|a + b| - 1] == b[|b| - 1];
      assert ConsignedCount(a + b) == ConsignedCount(a + init) + |b[|b| - 1].assets|;
    } else {
      assert a + b == a;
    }
  }

  lemma {:induction false} ConsignedCountIsLength(orders: seq<Order>)
    ensures ConsignedCount(orders) == |ConsignedAssets(orders)|
    decreases |orders|
  {
    if |orders| > 0 {
      var init := orders[..|orders| - 1];
      ConsignedCountIsLength(init);
      assert ConsignedAssets(orders) == ConsignedAssets(init) + orders[|orders| - 1].assets;
    }
  }

  lemma SameHoldingsSameTotal(t': Trader, t: Trader)
    requires t'.owned == t.owned && t'.outstandingSells == t.outstandingSells
    requires t'.lastObservedPrice == t.lastObservedPrice
    requires t'.money + SumReserved(t'.outstandingBuys) == t.money + SumReserved(t.outstandingBuys)
    ensures CurrentTotalAssets(t') == CurrentTotalAssets(t)
  {
  }

  // ---------------------------------------------------------------------
  // RemoveAll with a deferred query, as SubmitOrders runs it

  /** The LeaveOld… half and peak sell rules return a deferred query over the
      bot's own holdings list (Where, then OrderBy, then Take n), and
      SubmitOrders removes the offered assets with
      holdings.RemoveAll(w => query.Contains(w)). Each test re-runs the query
      against the list while RemoveAll is compacting it. */
  function HalfQuery(arr: seq<Asset>, threshold: real, n: int): seq<Asset> {
    Take(SortByBought(BoughtBelow(arr, threshold)), n)
  }

  /** The half rule's query as a function of the list it reads. */
  function HalfRuleQuery(threshold: real, n: int): seq<Asset> -> seq<Asset> {
    arr => HalfQuery(arr, threshold, n)
  }

  /** .NET's RemoveAll first skips the leading non-matches. */
  function FirstQueried(arr: seq<Asset>, query: seq<Asset> -> seq<Asset>, i: nat): (k: nat)
    requires i <= |arr|
    ensures i <= k <= |arr|
    ensures k < |arr| ==> arr[k] in query(arr)
    ensures forall j :: i <= j < k ==> arr[j] !in query(arr)
    decreases |arr| - i
  {
    if i == |arr| || arr[i] in query(arr) then i
    else FirstQueried(arr, query, i + 1)
  }

  /** Then it copies each later non-match down to the next free slot. The
      list keeps its length until the end, so each query sees the whole array,
      including the slots already overwritten and those not yet cleared. */
  function CompactQueried(arr: seq<Asset>, query: seq<Asset> -> seq<Asset>, free: nat, current: nat): (r: seq<Asset>)
    requires free < current <= |arr|
    ensures |r| <= free + (|arr| - current)
    ensures forall a :: a in r ==> a in arr
    decreases |arr| - current
  {
    if current == |arr| then arr[..free]
    else if arr[current] in query(arr) then CompactQueried(arr, query, free, current + 1)
    else
      var arr' := arr[free := arr[current]];
      var r := CompactQueried(arr', query, free + 1, current + 1);
      assert forall a :: a in arr' ==> a in arr by {
        forall a | a in arr'
          ensures a in arr
        {
          var k :| 0 <= k < |arr'| && arr'[k] == a;
          if k != free {
            assert arr[k] == a;
          }
        }
      }
      r
  }

  /** holdings.RemoveAll(w => query.Contains(w)) with the query re-evaluated
      against the list at every test, as the source runs it. */
  function RemoveAllRequeried(holdings: seq<Asset>, query: seq<Asset> -> seq<Asset>): (r: seq<Asset>)
    ensures |r| <= |holdings|
    ensures forall a :: a in r ==> a in holdings
    ensures (forall i :: 0 <= i < |holdings| ==> holdings[i] !in query(holdings)) ==> r == holdings
  {
    var first := FirstQueried(holdings, query, 0);
    if first == |holdings| then holdings
    else CompactQueried(holdings, query, first, first + 1)
  }

  /** A filter that every element passes keeps the list. */
  lemma {:induction false} AllBelowKept(s: seq<Asset>, threshold: real)
    requires forall i :: 0 <= i < |s| ==> Bought(s[i]) < threshold
    ensures BoughtBelow(s, threshold) == s
    decreases |s|
  {
    if |s| > 0 {
      var init := s[..|s| - 1];
      assert forall i :: 0 <= i < |init| ==> init[i] == s[i];
      AllBelowKept(init, threshold);
      assert s == init + [s[|s| - 1]];
      assert Bought(s[|s| - 1]) < threshold;
      assert BoughtBelow(s, threshold) == BoughtBelow(init, threshold) + [s[|s| - 1]];
    }
  }

  /** Taking one asset from the sorted list takes the one bought strictly
      cheapest. */
  lemma TakeCheapest(s: seq<Asset>, m: Asset)
    requires m in s && forall x :: x in s && x != m ==> Bought(m) < Bought(x)
    ensures Take(SortByBought(s), 1) == [m]
  {
    var r := SortByBought(s);
    assert r[0] in multiset(s);
    assert m in multiset(r);
    var j :| 0 <= j < |r| && r[j] == m;
    assert Bought(r[0]) <= Bought(m);
    assert r[0] == m;
  }

  /** The half rule's offer is the query's result at the query's threshold. */
  lemma HalfOfferIsQuery(factor: real, lastPrice: real, owned: seq<Asset>)
    ensures HalfProfitableAtX(factor, lastPrice, owned, [])[0] ==
      SellOffer(lastPrice * 1.02, HalfQuery(owned, lastPrice * 1.02, |owned| / 2))
  {
  }

  /** Holdings a1, a3, a2 where the query picks a1 from the list as it starts
      and a2 once a3 has been copied over a1: RemoveAll keeps only a3. */
  lemma RequeriedExample(a1: Asset, a2: Asset, a3: Asset, query: seq<Asset> -> seq<Asset>)
    requires a1 != a3 && a2 != a3
    requires query([a1, a3, a2]) == [a1] && query([a3, a3, a2]) == [a2]
    ensures RemoveAllRequeried([a1, a3, a2], query) == [a3]
  {
    var holdings := [a1, a3, a2];
    var arr := holdings[0 := a3];
    assert arr == [a3, a3, a2];
    assert FirstQueried(holdings, query, 0) == 0;
    assert CompactQueried(holdings, query, 0, 1) == CompactQueried(arr, query, 1, 2);
    assert CompactQueried(arr, query, 1, 2) == CompactQueried(arr, query, 1, 3);
    assert arr[..1] == [a3];
  }

  /** When every held asset is below the threshold and one was bought
      strictly cheapest, the half rule's query for one asset yields it. */
  lemma HalfQueryCheapest(s: seq<Asset>, m: Asset, threshold: real)
    requires forall i :: 0 <= i < |s| ==> Bought(s[i]) < threshold
    requires m in s && forall x :: x in s && x != m ==> Bought(m) < Bought(x)
    ensures HalfQuery(s, threshold, 1) == [m]
  {
    AllBelowKept(s, threshold);
    TakeCheapest(s, m);
  }

  /** The rule's query applied to a list is the query over that list. */
  lemma HalfRuleQueryApplies(threshold: real, n: int, s: seq<Asset>)
    ensures HalfRuleQuery(threshold, n)(s) == HalfQuery(s, threshold, n)
  {
  }

  /** Holdings a1, a3, a2 bought at p1, p3 and p2 with p1 < p2 < p3 below
      the threshold: the half rule's query picks a1 from them as they start. */
  lemma HalfQueryOfThree(a1: Asset, a2: Asset, a3: Asset, threshold: real)
    requires Bought(a1) < Bought(a2) < Bought(a3) < threshold
    ensures HalfQuery([a1, a3, a2], threshold, 1) == [a1]
  {
    HalfQueryCheapest([a1, a3, a2], a1, threshold);
  }

  /** Once a3 has been copied over a1 the same query picks a2. */
  lemma HalfQueryAfterCopy(a2: Asset, a3: Asset, threshold: real)
    requires Bought(a2) < Bought(a3) < threshold
    ensures HalfQuery([a3, a3, a2], threshold, 1) == [a2]
  {
    HalfQueryCheapest([a3, a3, a2], a2, threshold);
  }

  /** With no sell order outstanding the half rule offers the one asset its
      query picks from three holdings. */
  lemma HalfOfferOfThree(a1: Asset, a2: Asset, a3: Asset, factor: real, lastPrice: real)
    ensures HalfProfitableAtX(factor, lastPrice, [a1, a3, a2], [])[0] ==
      SellOffer(lastPrice * 1.02, HalfQuery([a1, a3, a2], lastPrice * 1.02, 1))
  {
    var owned := [a1, a3, a2];
    assert |owned| / 2 == 1;
    HalfOfferIsQuery(factor, lastPrice, owned);
  }

  /** Removing the offered list itself keeps a3 and a2. */
  lemma IntendedRemovalOfThree(a1: Asset, a2: Asset, a3: Asset)
    requires a1 != a2 && a1 != a3
    ensures RemoveAssets([a1, a3, a2], [a1]) == [a3, a2]
  {
    assert RemoveAssets([a2], [a1]) == [a2];
    assert RemoveAssets([a3, a2], [a1]) == [a3, a2];
  }

  /** Holdings a1, a3, a2 bought at p1, p3 and p2 with p1 < p2 < p3 below
      the threshold. With no sell order outstanding the half rule offers a1
      (HalfOfferOfThree, HalfQueryOfThree). Re-running its query while
      RemoveAll compacts the list also removes a2, since the query picks a2
      once a3 has been copied over a1 (HalfQueryAfterCopy); a2 is then neither
      held nor on offer, where removing the offered list keeps a3 and a2. */
  lemma RequeriedRemovalLosesAnAsset(a1: Asset, a2: Asset, a3: Asset, threshold: real)
    requires Bought(a1) < Bought(a2) < Bought(a3) < threshold
    ensures RemoveAllRequeried([a1, a3, a2], HalfRuleQuery(threshold, 1)) == [a3]
    ensures RemoveAssets([a1, a3, a2], HalfQuery([a1, a3, a2], threshold, 1)) == [a3, a2]
  {
    HalfQueryOfThree(a1, a2, a3, threshold);
    HalfQueryAfterCopy(a2, a3, threshold);
    HalfRuleQueryApplies(threshold, 1, [a1, a3, a2]);
    HalfRuleQueryApplies(threshold, 1, [a3, a3, a2]);
    RequeriedExample(a1, a2, a3, HalfRuleQuery(threshold, 1));
    IntendedRemovalOfThree(a1, a2, a3);
  }
}
