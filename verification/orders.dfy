/** Limit orders and their lifecycle (MarketplaceOrder, MarketplaceBuyOrder and
    MarketplaceSellOrder in VolvasArena/Marketplace.cs). An order's identity is
    its `id`; `owner` is the index of the trader that submitted it, so that its
    receipts can be delivered. */
module Orders {
  import opened Wrappers
  import opened Assets
  import opened Fees

  datatype Side = Buy | Sell

  datatype Order = Order(
    id: nat,
    owner: nat,
    side: Side,
    assetType: AssetType,
    ticksToLive: int,
    price: real,
    amount: int,
    reserved: real,
    assets: seq<Asset>,
    isCancelled: bool,
    isFulfilled: bool)
  {
    predicate Live() {
      !isCancelled && !isFulfilled
    }
  }

  /** What an order's owner learns when it settles or is cancelled. */
  datatype Receipt =
    | FulfilledReceipt(order: Order, finalPrice: AssetPrice, returned: real, courtage: real, transferred: seq<Asset>)
    | CancelledReceipt(order: Order, returned: real)

  /** The invariants every order keeps from construction on. */
  ghost predicate Valid(o: Order) {
    o.price > 0.0 && o.amount > 0 && o.reserved >= 0.0 && o.ticksToLive >= 0 &&
    !(o.isCancelled && o.isFulfilled) &&
    (o.Live() ==> o.ticksToLive >= 1) &&
    (o.side == Buy ==> o.reserved == o.price * o.amount as real && o.assets == []) &&
    (o.side == Sell ==> o.reserved == 0.0 && o.amount == |o.assets|)
  }

  /** The base constructor: rejects a non-positive time to live, price or
      amount and a negative reserve. */
  function NewOrder(id: nat, owner: nat, side: Side, t: AssetType, ticksToLive: int, price: real,
                    amount: int, reserved: real, assets: seq<Asset>): (r: Result<Order>)
    ensures r.Ok? <==> ticksToLive > 0 && price > 0.0 && amount > 0 && reserved >= 0.0
    ensures r.Ok? ==>
      r.value.Live() && r.value.id == id && r.value.owner == owner &&
      r.value.side == side && r.value.assetType == t && r.value.ticksToLive == ticksToLive &&
      r.value.price == price && r.value.amount == amount && r.value.reserved == reserved &&
      r.value.assets == assets
  {
    if ticksToLive <= 0 then Err("ticksToLive")
    else if price <= 0.0 then Err("price")
    else if amount <= 0 then Err("amount")
    else if reserved < 0.0 then Err("reservedAssets")
    else Ok(Order(id, owner, side, t, ticksToLive, price, amount, reserved, assets, false, false))
  }

  /** A buy order reserves price × amount. */
  function NewBuyOrder(id: nat, owner: nat, t: AssetType, ticksToLive: int, price: real, amount: int): (r: Result<Order>)
    ensures r.Ok? <==> ticksToLive > 0 && price > 0.0 && amount > 0
    ensures r.Ok? ==>
      Valid(r.value) && r.value.side == Buy && r.value.Live() &&
      r.value.reserved == price * amount as real && r.value.price == price &&
      r.value.amount == amount && r.value.ticksToLive == ticksToLive && r.value.assetType == t &&
      r.value.id == id && r.value.owner == owner
  {
    NewOrder(id, owner, Buy, t, ticksToLive, price, amount, price * amount as real, [])
  }

  /** A sell order consigns a non-empty list of assets (its type is the first
      asset's), reserves nothing, and its amount is the number of assets. */
  function NewSellOrder(id: nat, owner: nat, assets: seq<Asset>, ticksToLive: int, price: real): (r: Result<Order>)
    ensures r.Ok? <==> |assets| > 0 && ticksToLive > 0 && price > 0.0
    ensures r.Ok? ==>
      Valid(r.value) && r.value.side == Sell && r.value.Live() &&
      r.value.reserved == 0.0 && r.value.amount == |assets| && r.value.assets == assets &&
      r.value.assetType == assets[0].assetType && r.value.price == price &&
      r.value.ticksToLive == ticksToLive && r.value.id == id && r.value.owner == owner
  {
    if |assets| == 0 then Err("Sequence contains no elements")
    else NewOrder(id, owner, Sell, assets[0].assetType, ticksToLive, price, |assets|, 0.0, assets)
  }

  /** CancelOrder: marks the order cancelled and hands back its reserve. */
  function CancelOrder(o: Order): (r: (Order, Receipt))
    ensures r.0.isCancelled && r.0 == o.(isCancelled := true)
    ensures r.1 == CancelledReceipt(r.0, o.reserved)
  {
    var c := o.(isCancelled := true);
    (c, CancelledReceipt(c, o.reserved))
  }

  /** HandleTick: a settled or cancelled order is left alone; a live one counts
      down and cancels itself when the countdown reaches zero. */
  function HandleTick(o: Order): (r: Result<(Order, Option<Receipt>)>)
    ensures !o.Live() ==> r == Ok((o, None))
    ensures o.Live() && o.ticksToLive >= 1 ==> r.Ok?
    ensures r.Ok? && o.Live() ==>
      r.value.0 == o.(ticksToLive := o.ticksToLive - 1, isCancelled := r.value.0.ticksToLive == 0) &&
      r.value.0.ticksToLive >= 0 &&
      (r.value.1.Some? <==> r.value.0.isCancelled) &&
      (r.value.1.Some? ==> r.value.1.value == CancelledReceipt(r.value.0, o.reserved))
  {
    if o.isFulfilled || o.isCancelled then Ok((o, None))
    else
      var t := o.ticksToLive - 1;
      var o' := o.(ticksToLive := t);
      if t < 0 then Err("Expecting this to be cleaned up before this happens")
      else if t == 0 then
        var (c, receipt) := CancelOrder(o');
        Ok((c, Some(receipt)))
      else Ok((o', None))
  }

  lemma HandleTickPreservesValid(o: Order)
    requires Valid(o)
    ensures HandleTick(o).Ok? && Valid(HandleTick(o).value.0)
  {
  }

  /** `n` consecutive HandleTick calls on one order. */
  function HandleTicks(o: Order, n: nat): Result<Order>
    decreases n
  {
    if n == 0 then Ok(o)
    else
      var (o1, _) :- HandleTick(o);
      HandleTicks(o1, n - 1)
  }

  /** An order submitted with time to live k stays live for exactly k - 1
      further ticks and is cancelled by the k-th: after j ≤ k ticks its
      countdown is k - j and it is live exactly when j < k. Hence it is
      looked at for settlement on at most k - 1 ticks. */
  lemma {:induction false} Countdown(o: Order, j: nat)
    requires Valid(o) && o.Live() && j <= o.ticksToLive
    ensures HandleTicks(o, j).Ok?
    ensures var o' := HandleTicks(o, j).value;
      Valid(o') && o'.ticksToLive == o.ticksToLive - j && !o'.isFulfilled &&
      (o'.Live() <==> j < o.ticksToLive) && (o'.isCancelled <==> j == o.ticksToLive)
    decreases j
  {
    if j > 0 {
      var (o1, _) := HandleTick(o).value;
      HandleTickPreservesValid(o);
      if j == 1 {
        assert HandleTicks(o1, 0) == Ok(o1);
      } else {
        Countdown(o1, j - 1);
      }
    }
  }

  /** A live buy order settles when the latest price is at or below its limit. */
  predicate BuySettles(o: Order, latest: real) {
    latest <= o.price
  }

  /** A live sell order settles when the latest price is at or above its limit. */
  predicate SellSettles(o: Order, latest: real) {
    latest >= o.price
  }

  /** FulfillOrder: marks the order fulfilled and computes its receipt. A buy
      order mints `amount` assets at the settlement price and refunds what is
      left of the reserve after cost and courtage; it fails if the cost exceeds
      the reserve. A sell order pays the proceeds net of courtage and transfers
      exactly the consigned assets. */
  function FulfillOrder(o: Order, f: AssetFactory, settlement: AssetPrice, courtage: real): (r: Result<(AssetFactory, Order, Receipt)>)
    requires o.amount >= 0
    ensures o.side == Sell ==> r.Ok?
    ensures o.side == Buy ==> (r.Ok? <==> settlement.price * o.amount as real <= o.reserved)
    ensures r.Ok? ==> r.value.1 == o.(isFulfilled := true)
    ensures r.Ok? ==>
      r.value.2.FulfilledReceipt? && r.value.2.order == r.value.1 &&
      r.value.2.finalPrice == settlement && r.value.2.courtage == courtage
    ensures r.Ok? && o.side == Buy ==>
      var rc := r.value.2;
      rc.returned + o.amount as real * settlement.price + courtage == o.reserved &&
      |rc.transferred| == o.amount && NoDuplicates(rc.transferred) &&
      IdsWithin(rc.transferred, f.numCreated, r.value.0.numCreated) &&
      r.value.0.numCreated == f.numCreated + o.amount &&
      (forall i :: 0 <= i < |rc.transferred| ==>
        rc.transferred[i].assetType == o.assetType && rc.transferred[i].boughtAt == settlement)
    ensures r.Ok? && o.side == Sell ==>
      r.value.0 == f && r.value.2.transferred == o.assets &&
      r.value.2.returned + courtage == o.amount as real * settlement.price
  {
    var done := o.(isFulfilled := true);
    match o.side
    case Buy =>
      if settlement.price * o.amount as real > o.reserved then Err("cost exceeds reserve")
      else
        var (f', minted) := MintBatch(f, o.amount, o.assetType, settlement);
        var finalPrice := o.amount as real * settlement.price + courtage;
        Ok((f', done, FulfilledReceipt(done, settlement, o.reserved - finalPrice, courtage, minted)))
    case Sell =>
      var finalPrice := o.amount as real * settlement.price;
      Ok((f, done, FulfilledReceipt(done, settlement, finalPrice - courtage, courtage, o.assets)))
  }

  /** A valid buy order whose limit the settlement price meets can always be
      paid for out of its reserve, so settlement never throws. */
  lemma BuySettlementWithinReserve(o: Order, settlement: AssetPrice)
    requires Valid(o) && o.side == Buy && BuySettles(o, settlement.price)
    ensures settlement.price * o.amount as real <= o.reserved
  {
    assert settlement.price * o.amount as real <= o.price * o.amount as real;
  }
}
