/** The marketplace (Marketplace in VolvasArena/Marketplace.cs): it owns the
    price provider, the asset factory and the lists of ongoing buy and sell
    orders, ages and settles those orders once per tick and collects new ones
    from its subscribed traders. Receipts are delivered to the trader whose
    index is the order's `owner`. */
module Market {
  import opened Wrappers
  import opened Assets
  import opened Fees
  import opened Prices
  import opened Orders
  import opened Traders

  /** Ticks of price history handed to traders, and ticks generated before
      trading starts. */
  const TicksOfHistoryToProvide := 10

  datatype Market = Market(
    provider: Provider,
    factory: AssetFactory,
    fees: FeeSchedule,
    traders: seq<Trader>,
    buys: seq<Order>,
    sells: seq<Order>,
    nextOrderId: nat)

  function NewMarket(provider: Provider, fees: FeeSchedule): (m: Market)
    ensures m.traders == [] && m.buys == [] && m.sells == [] && m.factory.numCreated == 0
    ensures Good(m)
  {
    Market(provider, NewFactory(), fees, [], [], [], 0)
  }

  function Subscribe(m: Market, t: Trader): (r: Market)
    ensures r.traders == m.traders + [t] && r.traders[|m.traders|] == t
    ensures r == m.(traders := r.traders)
    ensures Good(m) ==> Good(r)
  {
    m.(traders := m.traders + [t])
  }

  function SubscribeRange(m: Market, ts: seq<Trader>): (r: Market)
    ensures r.traders == m.traders + ts
    ensures r == m.(traders := r.traders)
    ensures Good(m) ==> Good(r)
  {
    m.(traders := m.traders + ts)
  }

  /** Subscribing a range is subscribing its traders one after another. */
  lemma {:induction false} SubscribeRangeIsRepeatedSubscribe(m: Market, ts: seq<Trader>)
    ensures |ts| > 0 ==> SubscribeRange(m, ts) == Subscribe(SubscribeRange(m, ts[..|ts| - 1]), ts[|ts| - 1])
  {
    if |ts| > 0 {
      assert m.traders + ts == (m.traders + ts[..|ts| - 1]) + [ts[|ts| - 1]];
    }
  }

  // ---------------------------------------------------------------------
  // Order-list invariants

  /** Identities strictly increase along the list, so none repeats. */
  ghost predicate IdsIncreasing(s: seq<Order>) {
    forall i, j :: 0 <= i < j < |s| ==> s[i].id < s[j].id
  }

  ghost predicate IdsBelow(s: seq<Order>, n: nat) {
    forall i :: 0 <= i < |s| ==> s[i].id < n
  }

  /** An order as it may sit in a marketplace list between ticks: valid, on
      the list's side, not settled, and owned by a subscribed trader. */
  ghost predicate Listed(o: Order, side: Side, traders: nat) {
    Valid(o) && o.side == side && !o.isFulfilled && o.owner < traders
  }

  ghost predicate AllListed(s: seq<Order>, side: Side, traders: nat) {
    forall i :: 0 <= i < |s| ==> Listed(s[i], side, traders)
  }

  /** The marketplace's invariant. */
  ghost predicate Good(m: Market) {
    AllListed(m.buys, Buy, |m.traders|) && AllListed(m.sells, Sell, |m.traders|) &&
    IdsIncreasing(m.buys) && IdsIncreasing(m.sells) &&
    IdsBelow(m.buys, m.nextOrderId) && IdsBelow(m.sells, m.nextOrderId)
  }

  // ---------------------------------------------------------------------
  // List operations

  /** The orders satisfying `keep`, in their original order (List.RemoveAll
      with the negated predicate). */
  function Keep(s: seq<Order>, keep: Order -> bool): (r: seq<Order>)
    ensures forall o :: o in r <==> o in s && keep(o)
    ensures |r| <= |s|
    ensures IdsIncreasing(s) ==> IdsIncreasing(r)
    decreases |s|
  {
    if |s| == 0 then []
    else
      var rest := Keep(s[1..], keep);
      if keep(s[0]) then
        KeepConsIncreasing(s, rest);
        [s[0]] + rest
      else rest
  }

  lemma KeepConsIncreasing(s: seq<Order>, rest: seq<Order>)
    requires |s| > 0 && (forall o :: o in rest ==> o in s[1..])
    requires IdsIncreasing(s) ==> IdsIncreasing(rest)
    ensures IdsIncreasing(s) ==> IdsIncreasing([s[0]] + rest)
  {
    if IdsIncreasing(s) {
      forall j | 0 <= j < |rest|
        ensures s[0].id < rest[j].id
      {
        assert rest[j] in s[1..];
        var k :| 0 <= k < |s[1..]| && s[1..][k] == rest[j];
        assert s[k + 1] == rest[j];
      }
    }
  }

  /** Keep preserves any property every element has. */
  lemma KeepAll(s: seq<Order>, keep: Order -> bool, side: Side, traders: nat)
    requires AllListed(s, side, traders)
    ensures AllListed(Keep(s, keep), side, traders)
  {
    var r := Keep(s, keep);
    forall i | 0 <= i < |r|
      ensures Listed(r[i], side, traders)
    {
      assert r[i] in s;
    }
  }

  lemma KeepBelow(s: seq<Order>, keep: Order -> bool, n: nat)
    requires IdsBelow(s, n)
    ensures IdsBelow(Keep(s, keep), n)
  {
    var r := Keep(s, keep);
    forall i | 0 <= i < |r|
      ensures r[i].id < n
    {
      assert r[i] in s;
    }
  }

  /** The orders whose identity is in `ids` are marked cancelled (the effect
      on the marketplace's lists of a trader's strategy cancelling them). */
  function MarkCancelled(s: seq<Order>, ids: set<nat>): (r: seq<Order>)
    ensures |r| == |s|
    ensures forall i :: 0 <= i < |s| ==>
      r[i] == (if s[i].id in ids then s[i].(isCancelled := true) else s[i])
    decreases |s|
  {
    if |s| == 0 then []
    else [if s[0].id in ids then s[0].(isCancelled := true) else s[0]] + MarkCancelled(s[1..], ids)
  }

  // ---------------------------------------------------------------------
  // Receipt delivery

  /** The receipt reaches the trader that submitted the order; an order with
      no subscribed owner has no listener and its receipt is dropped. */
  function Deliver(traders: seq<Trader>, rc: Receipt): (r: Result<seq<Trader>>)
    ensures r.Ok? ==> |r.value| == |traders|
    ensures r.Ok? ==> forall i :: 0 <= i < |traders| && i != rc.order.owner ==> r.value[i] == traders[i]
    ensures r.Ok? ==> SameBots(r.value, traders)
    ensures rc.order.owner >= |traders| ==> r == Ok(traders)
    ensures rc.FulfilledReceipt? ==> r.Ok?
  {
    var owner := rc.order.owner;
    if owner >= |traders| then Ok(traders)
    else
      var t :- ApplyReceipt(traders[owner], rc);
      Ok(traders[owner := t])
  }

  function DeliverAll(traders: seq<Trader>, rcs: seq<Receipt>): (r: Result<seq<Trader>>)
    ensures r.Ok? ==> |r.value| == |traders|
    ensures (forall k :: 0 <= k < |rcs| ==> rcs[k].FulfilledReceipt?) ==> r.Ok?
    ensures r.Ok? ==> SameBots(r.value, traders)
    decreases |rcs|
  {
    if |rcs| == 0 then Ok(traders)
    else
      var t1 :- Deliver(traders, rcs[0]);
      DeliverAll(t1, rcs[1..])
  }

  // ---------------------------------------------------------------------
  // HandleExistingOrders

  /** HandleTick on every order of a list, collecting the receipts of the
      orders whose countdown ran out. */
  function TickAll(s: seq<Order>): (r: Result<(seq<Order>, seq<Receipt>)>)
    ensures (forall i :: 0 <= i < |s| ==> Valid(s[i])) ==> r.Ok?
    ensures r.Ok? ==> |r.value.0| == |s|
    ensures r.Ok? ==> forall i :: 0 <= i < |s| ==>
      HandleTick(s[i]).Ok? && r.value.0[i] == HandleTick(s[i]).value.0
    ensures r.Ok? ==> forall i :: 0 <= i < |s| && s[i].Live() && r.value.0[i].isCancelled ==>
      CancelledReceipt(r.value.0[i], s[i].reserved) in r.value.1
    ensures r.Ok? ==> forall k :: 0 <= k < |r.value.1| ==>
      r.value.1[k].CancelledReceipt? && r.value.1[k].order in r.value.0
    decreases |s|
  {
    if |s| == 0 then Ok(([], []))
    else
      HandleTickPreservesValidIfValid(s[0]);
      var (o, rc) :- HandleTick(s[0]);
      var (rest, rcs) :- TickAll(s[1..]);
      var here := if rc.Some? then [rc.value] else [];
      Ok(([o] + rest, here + rcs))
  }

  lemma HandleTickPreservesValidIfValid(o: Order)
    ensures Valid(o) ==> HandleTick(o).Ok? && Valid(HandleTick(o).value.0)
  {
    if Valid(o) {
      HandleTickPreservesValid(o);
    }
  }

  /** Whether an order's limit is met by the latest price. */
  predicate Settles(o: Order, latest: real) {
    if o.side == Buy then BuySettles(o, latest) else SellSettles(o, latest)
  }

  /** The courtage the fee schedule charges for settling an order. */
  function CourtageFor(fees: FeeSchedule, o: Order, latest: AssetPrice): real {
    if o.side == Buy then BuyCost(fees, latest, o.amount) else SellCost(fees, o.assets)
  }

  /** Settles one order if the latest price meets its limit. */
  function SettleOne(fees: FeeSchedule, f: AssetFactory, latest: AssetPrice, o: Order): (r: Result<(AssetFactory, Order, seq<Receipt>)>)
    requires o.amount >= 0
    ensures Valid(o) ==> r.Ok?
    ensures r.Ok? ==> r.value.1 == (if Settles(o, latest.price) then o.(isFulfilled := true) else o)
    ensures r.Ok? ==> |r.value.2| == (if Settles(o, latest.price) then 1 else 0)
    ensures r.Ok? ==> forall k :: 0 <= k < |r.value.2| ==>
      r.value.2[k].FulfilledReceipt? && r.value.2[k].finalPrice == latest && r.value.2[k].order == r.value.1
    ensures r.Ok? ==> f.numCreated <= r.value.0.numCreated
  {
    if Settles(o, latest.price) then
      SettlementWithinReserve(o, latest);
      var (f', done, rc) :- FulfillOrder(o, f, latest, CourtageFor(fees, o, latest));
      Ok((f', done, [rc]))
    else Ok((f, o, []))
  }

  lemma SettlementWithinReserve(o: Order, latest: AssetPrice)
    ensures Valid(o) && o.side == Buy && BuySettles(o, latest.price) ==>
      latest.price * o.amount as real <= o.reserved
  {
    if Valid(o) && o.side == Buy && BuySettles(o, latest.price) {
      BuySettlementWithinReserve(o, latest);
    }
  }

  /** Settles every order whose limit the latest price meets. */
  function Settle(fees: FeeSchedule, f: AssetFactory, latest: AssetPrice, s: seq<Order>): (r: Result<(AssetFactory, seq<Order>, seq<Receipt>)>)
    requires Amounts(s)
    ensures (forall i :: 0 <= i < |s| ==> Valid(s[i])) ==> r.Ok?
    ensures r.Ok? ==> |r.value.1| == |s|
    ensures r.Ok? ==> forall i :: 0 <= i < |s| ==>
      r.value.1[i] == (if Settles(s[i], latest.price) then s[i].(isFulfilled := true) else s[i])
    ensures r.Ok? ==> forall k :: 0 <= k < |r.value.2| ==>
      r.value.2[k].FulfilledReceipt? && r.value.2[k].finalPrice == latest && r.value.2[k].order in r.value.1
    ensures r.Ok? ==> f.numCreated <= r.value.0.numCreated
    decreases |s|
  {
    if |s| == 0 then Ok((f, [], []))
    else
      var (f1, o1, here) :- SettleOne(fees, f, latest, s[0]);
      var (f2, rest, rcs) :- Settle(fees, f1, latest, s[1..]);
      Ok((f2, [o1] + rest, here + rcs))
  }

  predicate IsCancelled(o: Order) {
    o.isCancelled
  }

  predicate IsFulfilled(o: Order) {
    o.isFulfilled
  }

  /** No order of the list has a negative amount (the constructor's guarantee). */
  ghost predicate Amounts(s: seq<Order>) {
    forall i :: 0 <= i < |s| ==> s[i].amount >= 0
  }

  /** One list's part of the first half of HandleExistingOrders: every order
      counts down, the receipts of the orders that ran out reach their owners,
      and cancelled orders leave the list. */
  function AgeList(traders: seq<Trader>, s: seq<Order>): (r: Result<(seq<Trader>, seq<Order>)>)
    requires Amounts(s)
    ensures r.Ok? ==> |r.value.0| == |traders|
    ensures r.Ok? ==> SameBots(r.value.0, traders)
    ensures r.Ok? ==> Amounts(r.value.1) && AgedFrom(s, r.value.1)
    ensures r.Ok? ==> forall o :: o in r.value.1 ==> !o.isCancelled
    ensures r.Ok? ==> IdsIncreasing(s) ==> IdsIncreasing(r.value.1)
  {
    var (s1, rcs) :- TickAll(s);
    var traders' :- DeliverAll(traders, rcs);
    var s2 := Keep(s1, o => !IsCancelled(o));
    AmountsAfterTick(s, s1, s2);
    Aged(s, s1, s2);
    SameIds(s, s1);
    Ok((traders', s2))
  }

  /** The first half of HandleExistingOrders, buys first. */
  function Age(m: Market): (r: Result<Market>)
    requires Amounts(m.buys) && Amounts(m.sells)
    ensures r.Ok? ==> r.value == m.(traders := r.value.traders, buys := r.value.buys, sells := r.value.sells)
    ensures r.Ok? ==> |r.value.traders| == |m.traders|
    ensures r.Ok? ==> SameBots(r.value.traders, m.traders)
    ensures r.Ok? ==> Amounts(r.value.buys) && Amounts(r.value.sells)
    ensures r.Ok? ==> forall o :: o in r.value.buys + r.value.sells ==> !o.isCancelled
    ensures r.Ok? ==> AgedFrom(m.buys, r.value.buys) && AgedFrom(m.sells, r.value.sells)
    ensures r.Ok? ==> (IdsIncreasing(m.buys) ==> IdsIncreasing(r.value.buys)) && (IdsIncreasing(m.sells) ==> IdsIncreasing(r.value.sells))
  {
    var (tr1, b2) :- AgeList(m.traders, m.buys);
    var (tr2, s2) :- AgeList(tr1, m.sells);
    Ok(m.(traders := tr2, buys := b2, sells := s2))
  }

  /** One list's part of the second half of HandleExistingOrders: orders whose
      limit the latest price meets settle, their receipts reach their owners,
      and they leave the list. */
  function SettleList(fees: FeeSchedule, f: AssetFactory, traders: seq<Trader>, latest: AssetPrice, s: seq<Order>): (r: Result<(AssetFactory, seq<Trader>, seq<Order>)>)
    requires Amounts(s)
    ensures r.Ok? ==> |r.value.1| == |traders|
    ensures r.Ok? ==> SameBots(r.value.1, traders)
    ensures r.Ok? ==> forall o :: o in r.value.2 ==> !o.isFulfilled
    ensures r.Ok? ==> SettledFrom(s, r.value.2, latest.price) && Amounts(r.value.2)
    ensures r.Ok? ==> IdsIncreasing(s) ==> IdsIncreasing(r.value.2)
  {
    var (f1, s3, rcs) :- Settle(fees, f, latest, s);
    var traders' :- DeliverAll(traders, rcs);
    var s4 := Keep(s3, o => !IsFulfilled(o));
    Unsettled(s, s3, s4, latest.price);
    SameIds(s, s3);
    AmountsSettled(s, s4, latest.price);
    Ok((f1, traders', s4))
  }

  /** The second half of HandleExistingOrders, buys first. */
  function SettleAll(m: Market, latest: AssetPrice): (r: Result<Market>)
    requires Amounts(m.buys) && Amounts(m.sells)
    ensures r.Ok? ==>
      r.value == m.(factory := r.value.factory, traders := r.value.traders, buys := r.value.buys, sells := r.value.sells)
    ensures r.Ok? ==> |r.value.traders| == |m.traders|
    ensures r.Ok? ==> forall o :: o in r.value.buys + r.value.sells ==> !o.isFulfilled
    ensures r.Ok? ==> SameBots(r.value.traders, m.traders)
    ensures r.Ok? ==> SettledFrom(m.buys, r.value.buys, latest.price) && SettledFrom(m.sells, r.value.sells, latest.price)
    ensures r.Ok? ==> Amounts(r.value.buys) && Amounts(r.value.sells)
    ensures r.Ok? ==> (IdsIncreasing(m.buys) ==> IdsIncreasing(r.value.buys)) && (IdsIncreasing(m.sells) ==> IdsIncreasing(r.value.sells))
  {
    var (f1, tr1, b4) :- SettleList(m.fees, m.factory, m.traders, latest, m.buys);
    var (f2, tr2, s4) :- SettleList(m.fees, f1, tr1, latest, m.sells);
    Ok(m.(factory := f2, traders := tr2, buys := b4, sells := s4))
  }

  lemma AmountsSettled(s: seq<Order>, r: seq<Order>, latest: real)
    requires Amounts(s) && SettledFrom(s, r, latest)
    ensures Amounts(r)
  {
    forall k | 0 <= k < |r|
      ensures r[k].amount >= 0
    {
      assert r[k] in r;
    }
  }

  lemma SameIds(a: seq<Order>, b: seq<Order>)
    requires |a| == |b| && forall i :: 0 <= i < |a| ==> a[i].id == b[i].id
    ensures IdsIncreasing(a) ==> IdsIncreasing(b)
  {
  }

  /** `r` holds exactly the orders of `s` that have not settled and whose
      limit `latest` does not meet. */
  ghost predicate SettledFrom(s: seq<Order>, r: seq<Order>, latest: real) {
    forall o :: o in r <==> exists i :: 0 <= i < |s| && o == s[i] && !o.isFulfilled && !Settles(o, latest)
  }

  /** `r` holds exactly the orders of `s` after one HandleTick that are not
      cancelled. */
  ghost predicate AgedFrom(s: seq<Order>, r: seq<Order>) {
    (forall i :: 0 <= i < |s| ==> HandleTick(s[i]).Ok?) &&
    forall o :: o in r <==> exists i :: 0 <= i < |s| && o == HandleTick(s[i]).value.0 && !o.isCancelled
  }

  lemma Aged(s: seq<Order>, s1: seq<Order>, s2: seq<Order>)
    requires |s1| == |s| && forall i :: 0 <= i < |s| ==> HandleTick(s[i]).Ok? && s1[i] == HandleTick(s[i]).value.0
    requires forall o :: o in s2 <==> o in s1 && !o.isCancelled
    ensures AgedFrom(s, s2)
  {
    forall o | o in s2
      ensures exists i :: 0 <= i < |s| && o == HandleTick(s[i]).value.0 && !o.isCancelled
    {
      var i :| 0 <= i < |s1| && s1[i] == o;
    }
  }

  lemma Unsettled(s: seq<Order>, s3: seq<Order>, s4: seq<Order>, latest: real)
    requires |s3| == |s| && forall i :: 0 <= i < |s| ==>
      s3[i] == (if Settles(s[i], latest) then s[i].(isFulfilled := true) else s[i])
    requires forall o :: o in s4 <==> o in s3 && !o.isFulfilled
    ensures SettledFrom(s, s4, latest)
  {
    forall o | o in s4
      ensures exists i :: 0 <= i < |s| && o == s[i] && !o.isFulfilled && !Settles(o, latest)
    {
      var i :| 0 <= i < |s3| && s3[i] == o;
      assert !o.isFulfilled;
    }
    forall i | 0 <= i < |s| && !s[i].isFulfilled && !Settles(s[i], latest)
      ensures s[i] in s4
    {
      assert s3[i] == s[i];
    }
  }

  /** HandleExistingOrders. The latest price is only read when an order is
      left to look at after the cancelled ones are gone. */
  function HandleExistingOrders(m: Market): (r: Result<Market>)
    requires Amounts(m.buys) && Amounts(m.sells)
    ensures r.Ok? ==>
      r.value == m.(factory := r.value.factory, traders := r.value.traders, buys := r.value.buys, sells := r.value.sells)
    ensures r.Ok? ==> |r.value.traders| == |m.traders|
    ensures r.Ok? ==> Amounts(r.value.buys) && Amounts(r.value.sells)
    ensures r.Ok? ==> forall o :: o in r.value.buys + r.value.sells ==> o.Live()
    ensures r.Ok? ==> SameBots(r.value.traders, m.traders)
  {
    var m1 :- Age(m);
    if |m1.buys| == 0 && |m1.sells| == 0 then Ok(m1)
    else
      var latest :- ProviderLatest(m1.provider);
      var m2 :- SettleAll(m1, latest);
      LiveAfterSettle(m1, m2, latest.price);
      Ok(m2)
  }

  lemma AmountsAfterTick(s: seq<Order>, s1: seq<Order>, s2: seq<Order>)
    requires Amounts(s)
    requires |s1| == |s| && forall i :: 0 <= i < |s| ==> s1[i].amount == s[i].amount
    requires forall o :: o in s2 ==> o in s1
    ensures Amounts(s2)
  {
    forall i | 0 <= i < |s2|
      ensures s2[i].amount >= 0
    {
      assert s2[i] in s1;
    }
  }

  lemma LiveAfterSettle(m1: Market, m2: Market, latest: real)
    requires forall o :: o in m1.buys + m1.sells ==> !o.isCancelled
    requires SettledFrom(m1.buys, m2.buys, latest) && SettledFrom(m1.sells, m2.sells, latest)
    ensures forall o :: o in m2.buys + m2.sells ==> o.Live()
  {
    forall o | o in m2.buys + m2.sells
      ensures o.Live()
    {
      if o in m2.buys {
        var i :| 0 <= i < |m1.buys| && o == m1.buys[i] && !o.isFulfilled;
        assert o in m1.buys + m1.sells;
      } else {
        var i :| 0 <= i < |m1.sells| && o == m1.sells[i] && !o.isFulfilled;
        assert o in m1.buys + m1.sells;
      }
    }
  }

  /** An order still listed after HandleExistingOrders: a live order of `s`
      with at least two ticks to live, one tick older, whose limit the latest
      price does not meet. */
  ghost predicate Survivor(s: seq<Order>, o: Order, latest: real) {
    exists i :: 0 <= i < |s| && s[i].Live() && s[i].ticksToLive >= 2 &&
      o == s[i].(ticksToLive := s[i].ticksToLive - 1) && !Settles(o, latest)
  }

  /** HandleExistingOrders keeps the marketplace's invariant, and the orders it
      keeps are exactly the survivors: an order leaves the lists when it was
      already cancelled, when its countdown runs out, or when it settles. */
  lemma {:induction false} HandleExistingOrdersKeepsSurvivors(m: Market)
    requires Good(m) && HandleExistingOrders(m).Ok?
    ensures Good(HandleExistingOrders(m).value)
    ensures var r := HandleExistingOrders(m).value;
      forall o :: o in r.buys + r.sells ==> ProviderLatest(m.provider).Ok?
    ensures var r := HandleExistingOrders(m).value;
      ProviderLatest(m.provider).Ok? ==>
        (forall o :: o in r.buys <==> Survivor(m.buys, o, ProviderLatest(m.provider).value.price)) &&
        (forall o :: o in r.sells <==> Survivor(m.sells, o, ProviderLatest(m.provider).value.price))
  {
    var m1 := Age(m).value;
    var r := HandleExistingOrders(m).value;
    if |m1.buys| == 0 && |m1.sells| == 0 {
      assert r == m1;
      if ProviderLatest(m.provider).Ok? {
        var latest := ProviderLatest(m.provider).value.price;
        NoSurvivors(m.buys, m1.buys, latest, Buy, |m.traders|);
        NoSurvivors(m.sells, m1.sells, latest, Sell, |m.traders|);
      }
    } else {
      var latest := ProviderLatest(m1.provider).value;
      var m2 := SettleAll(m1, latest).value;
      assert r == m2;
      Survivors(m.buys, m1.buys, m2.buys, latest.price, Buy, |m.traders|, m.nextOrderId);
      Survivors(m.sells, m1.sells, m2.sells, latest.price, Sell, |m.traders|, m.nextOrderId);
    }
  }

  lemma AgedOrder(o: Order)
    requires Valid(o) && !o.isFulfilled
    ensures HandleTick(o).Ok?
    ensures !HandleTick(o).value.0.isCancelled <==> o.Live() && o.ticksToLive >= 2
    ensures !HandleTick(o).value.0.isCancelled ==> HandleTick(o).value.0 == o.(ticksToLive := o.ticksToLive - 1)
    ensures Valid(HandleTick(o).value.0)
  {
    HandleTickPreservesValid(o);
  }

  lemma NoSurvivors(s: seq<Order>, s1: seq<Order>, latest: real, side: Side, n: nat)
    requires AllListed(s, side, n) && AgedFrom(s, s1) && s1 == []
    ensures forall o :: !Survivor(s, o, latest)
  {
    forall i | 0 <= i < |s|
      ensures !(s[i].Live() && s[i].ticksToLive >= 2)
    {
      AgedOrder(s[i]);
    }
  }

  lemma {:induction false} Survivors(s: seq<Order>, s1: seq<Order>, s2: seq<Order>, latest: real, side: Side, n: nat, next: nat)
    requires AllListed(s, side, n) && IdsBelow(s, next)
    requires AgedFrom(s, s1) && SettledFrom(s1, s2, latest)
    ensures forall o :: o in s2 <==> Survivor(s, o, latest)
    ensures AllListed(s2, side, n) && IdsBelow(s2, next)
  {
    forall o | o in s2
      ensures Survivor(s, o, latest) && Listed(o, side, n) && o.id < next
    {
      var k :| 0 <= k < |s1| && o == s1[k] && !o.isFulfilled && !Settles(o, latest);
      assert o in s1;
      var i :| 0 <= i < |s| && o == HandleTick(s[i]).value.0 && !o.isCancelled;
      AgedOrder(s[i]);
    }
    forall o | Survivor(s, o, latest)
      ensures o in s2
    {
      var i :| 0 <= i < |s| && s[i].Live() && s[i].ticksToLive >= 2 &&
        o == s[i].(ticksToLive := s[i].ticksToLive - 1) && !Settles(o, latest);
      AgedOrder(s[i]);
      assert o in s1;
      var k :| 0 <= k < |s1| && s1[k] == o;
    }
    forall k | 0 <= k < |s2|
      ensures Listed(s2[k], side, n) && s2[k].id < next
    {
      assert s2[k] in s2;
    }
  }

  // ---------------------------------------------------------------------
  // Collecting new orders

  /** The identities of the orders the receipts are about. */
  function CancelledIds(rcs: seq<Receipt>): (ids: set<nat>)
    ensures forall k :: 0 <= k < |rcs| ==> rcs[k].order.id in ids
    ensures forall id :: id in ids ==> exists k :: 0 <= k < |rcs| && rcs[k].order.id == id
    decreases |rcs|
  {
    if |rcs| == 0 then {} else {rcs[0].order.id} + CancelledIds(rcs[1..])
  }

  /** The assets on offer: those consigned in sell orders not cancelled, list
      order. */
  function OnOffer(s: seq<Order>): (r: seq<Asset>)
    ensures forall a :: a in r <==> exists i :: 0 <= i < |s| && !s[i].isCancelled && a in s[i].assets
    decreases |s|
  {
    if |s| == 0 then []
    else
      var rest := OnOffer(s[1..]);
      assert forall i :: 1 <= i < |s| ==> s[1..][i - 1] == s[i];
      (if s[0].isCancelled then [] else s[0].assets) + rest
  }

  predicate IsBuy(o: Order) {
    o.side == Buy
  }

  predicate IsSell(o: Order) {
    o.side == Sell
  }

  /** Takes one trader's submission: the orders its strategies cancelled are
      marked cancelled in the lists, each new order must have time to live
      left, and is appended to its side's list; after a sell order is added
      (DEBUG) no asset may be on offer twice. */
  function Accept(m: Market, sub: Submission): (r: Result<Market>)
    requires Amounts(m.buys) && Amounts(m.sells) && Amounts(sub.orders)
    ensures r.Ok? ==> r.value == m.(buys := r.value.buys, sells := r.value.sells, nextOrderId := r.value.nextOrderId)
    ensures r.Ok? ==> r.value.nextOrderId == m.nextOrderId + |sub.orders|
    ensures r.Ok? ==> Amounts(r.value.buys) && Amounts(r.value.sells)
    ensures r.Ok? ==> forall o :: o in sub.orders ==> (o in r.value.buys || o in r.value.sells)
    ensures r.Ok? && (exists k :: 0 <= k < |sub.orders| && sub.orders[k].side == Sell) ==>
      !HasDuplicate(OnOffer(r.value.sells))
    ensures (exists k :: 0 <= k < |sub.orders| && sub.orders[k].ticksToLive <= 0) ==> r.Err?
  {
    if exists k :: 0 <= k < |sub.orders| && sub.orders[k].ticksToLive <= 0 then Err("order without time to live")
    else
      var ids := CancelledIds(sub.cancellations);
      var newBuys := Keep(sub.orders, IsBuy);
      var newSells := Keep(sub.orders, IsSell);
      var buys := MarkCancelled(m.buys, ids) + newBuys;
      var sells := MarkCancelled(m.sells, ids) + newSells;
      if |newSells| > 0 && HasDuplicate(OnOffer(sells)) then Err("Each asset may only be on offer once")
      else
        AmountsAccepted(m.buys, ids, sub.orders, newBuys);
        AmountsAccepted(m.sells, ids, sub.orders, newSells);
        SellAdded(sub.orders, newSells);
        Ok(m.(buys := buys, sells := sells, nextOrderId := m.nextOrderId + |sub.orders|))
  }

  lemma AmountsAccepted(s: seq<Order>, ids: set<nat>, orders: seq<Order>, added: seq<Order>)
    requires Amounts(s) && Amounts(orders) && forall o :: o in added ==> o in orders
    ensures Amounts(MarkCancelled(s, ids) + added)
  {
    var r := MarkCancelled(s, ids) + added;
    forall i | 0 <= i < |r|
      ensures r[i].amount >= 0
    {
      if i >= |s| {
        assert r[i] == added[i - |s|];
        assert r[i] in orders;
      }
    }
  }

  lemma SellAdded(orders: seq<Order>, newSells: seq<Order>)
    requires forall o :: o in newSells <==> o in orders && IsSell(o)
    ensures (exists k :: 0 <= k < |orders| && orders[k].side == Sell) ==> |newSells| > 0
  {
    if exists k :: 0 <= k < |orders| && orders[k].side == Sell {
      var k :| 0 <= k < |orders| && orders[k].side == Sell;
      assert orders[k] in newSells;
    }
  }

  /** Asks the traders from index `i` on, in subscription order, for their
      orders. */
  function SubmitAll(m: Market, i: nat, lastPrice: AssetPrice, history: seq<AssetPrice>): (r: Result<Market>)
    requires Amounts(m.buys) && Amounts(m.sells)
    ensures r.Ok? ==> r.value == m.(traders := r.value.traders, buys := r.value.buys, sells := r.value.sells, nextOrderId := r.value.nextOrderId)
    ensures r.Ok? ==> |r.value.traders| == |m.traders| && m.nextOrderId <= r.value.nextOrderId
    ensures r.Ok? ==> SameBots(r.value.traders, m.traders)
    ensures r.Ok? ==> Amounts(r.value.buys) && Amounts(r.value.sells)
    ensures r.Ok? ==> forall j :: 0 <= j < i && j < |m.traders| ==> r.value.traders[j] == m.traders[j]
    ensures i >= |m.traders| ==> r == Ok(m)
    ensures Good(m) && r.Ok? ==> Good(r.value)
    decreases |m.traders| - i
  {
    if i >= |m.traders| then Ok(m)
    else
      var sub :- SubmitOrders(m.traders[i], i, m.nextOrderId, lastPrice, history);
      FreshAmounts(sub.orders, i, m.nextOrderId);
      var m1 :- Accept(m.(traders := m.traders[i := sub.trader]), sub);
      assert Good(m) ==> Good(m1) by {
        if Good(m) {
          SubmitOneKeepsGood(m, i, sub);
        }
      }
      SubmitAll(m1, i + 1, lastPrice, history)
  }

  lemma FreshAmounts(orders: seq<Order>, owner: nat, nextId: nat)
    requires Fresh(orders, owner, nextId)
    ensures Amounts(orders)
  {
  }

  /** MakeTick: the provider ticks, existing orders are aged and settled, and
      (when any trader is subscribed) every trader is shown the last price and
      the ten most recent prices, newest first, and submits its orders. */
  function MakeTick(m: Market, draw: real): (r: Result<Market>)
    requires Amounts(m.buys) && Amounts(m.sells)
    ensures r.Ok? ==> ProviderTick(m.provider, draw).Ok? && r.value.provider == ProviderTick(m.provider, draw).value
    ensures r.Ok? ==> |r.value.traders| == |m.traders| && r.value.fees == m.fees
    ensures r.Ok? ==> Amounts(r.value.buys) && Amounts(r.value.sells)
    ensures r.Ok? ==> m.nextOrderId <= r.value.nextOrderId
    ensures r.Ok? ==> SameBots(r.value.traders, m.traders)
  {
    var p :- ProviderTick(m.provider, draw);
    var m1 :- HandleExistingOrders(m.(provider := p));
    CollectOrders(m1)
  }

  /** The second half of MakeTick: with any trader subscribed, every trader is
      shown the last price and the recent history and submits its orders. */
  function CollectOrders(m: Market): (r: Result<Market>)
    requires Amounts(m.buys) && Amounts(m.sells)
    ensures r.Ok? ==> r.value == m.(traders := r.value.traders, buys := r.value.buys, sells := r.value.sells, nextOrderId := r.value.nextOrderId)
    ensures r.Ok? ==> SameBots(r.value.traders, m.traders) && m.nextOrderId <= r.value.nextOrderId
    ensures r.Ok? ==> Amounts(r.value.buys) && Amounts(r.value.sells)
    ensures |m.traders| == 0 ==> r == Ok(m)
  {
    if |m.traders| == 0 then Ok(m)
    else
      var recent := Recent(ProviderPrices(m.provider), TicksOfHistoryToProvide);
      if |recent| == 0 then Err("Index was out of range")
      else SubmitAll(m, 0, recent[0], recent)
  }

  // ---------------------------------------------------------------------
  // The invariant across a tick

  lemma {:induction false} MarkCancelledListed(s: seq<Order>, ids: set<nat>, side: Side, n: nat, next: nat)
    requires AllListed(s, side, n) && IdsIncreasing(s) && IdsBelow(s, next)
    ensures AllListed(MarkCancelled(s, ids), side, n)
    ensures IdsIncreasing(MarkCancelled(s, ids)) && IdsBelow(MarkCancelled(s, ids), next)
  {
    var r := MarkCancelled(s, ids);
    forall i | 0 <= i < |r|
      ensures Listed(r[i], side, n) && r[i].id == s[i].id
    {
      if s[i].id in ids {
        CancelKeepsListed(s[i], side, n);
      }
    }
    SameIds(s, r);
  }

  /** Flagging a listed order cancelled leaves it listed. */
  lemma CancelKeepsListed(o: Order, side: Side, n: nat)
    requires Listed(o, side, n)
    ensures Listed(o.(isCancelled := true), side, n) && o.(isCancelled := true).id == o.id
  {
  }

  lemma FreshIncreasing(orders: seq<Order>, owner: nat, next: nat)
    requires Fresh(orders, owner, next)
    ensures IdsIncreasing(orders)
  {
  }

  lemma AppendListed(a: seq<Order>, orders: seq<Order>, b: seq<Order>, side: Side, n: nat, owner: nat, next: nat)
    requires AllListed(a, side, n) && IdsIncreasing(a) && IdsBelow(a, next)
    requires Fresh(orders, owner, next) && owner < n
    requires forall o :: o in b <==> o in orders && o.side == side
    requires IdsIncreasing(b)
    ensures AllListed(a + b, side, n) && IdsIncreasing(a + b) && IdsBelow(a + b, next + |orders|)
  {
    forall k | 0 <= k < |b|
      ensures Listed(b[k], side, n) && next <= b[k].id < next + |orders|
    {
      assert b[k] in orders;
    }
    var ab := a + b;
    forall i, j | 0 <= i < j < |ab|
      ensures ab[i].id < ab[j].id
    {
      if j >= |a| && i < |a| {
        assert ab[j] == b[j - |a|];
      } else if i >= |a| {
        assert ab[i] == b[i - |a|] && ab[j] == b[j - |a|];
      }
    }
    forall k | 0 <= k < |ab|
      ensures Listed(ab[k], side, n) && ab[k].id < next + |orders|
    {
      if k >= |a| {
        assert ab[k] == b[k - |a|];
      }
    }
  }

  /** A trader's submission, numbered from the marketplace's next identity,
      keeps the marketplace's invariant. The time-to-live guard never fires:
      the only way to reject it is the duplicate-offer check. */
  lemma AcceptKeepsGood(m: Market, sub: Submission, owner: nat)
    requires Good(m) && Fresh(sub.orders, owner, m.nextOrderId) && owner < |m.traders|
    ensures Accept(m, sub).Ok? ==> Good(Accept(m, sub).value)
    ensures Accept(m, sub).Err? ==> exists k :: 0 <= k < |sub.orders| && sub.orders[k].side == Sell
  {
    FreshAmounts(sub.orders, owner, m.nextOrderId);
    if Accept(m, sub).Ok? {
      AcceptedIsGood(m, sub, owner);
    } else {
      RejectedHadSell(m, sub, owner);
    }
  }

  lemma AcceptedIsGood(m: Market, sub: Submission, owner: nat)
    requires Good(m) && Fresh(sub.orders, owner, m.nextOrderId) && owner < |m.traders|
    requires Amounts(sub.orders) && Accept(m, sub).Ok?
    ensures Good(Accept(m, sub).value)
  {
    var ids := CancelledIds(sub.cancellations);
    assert Accept(m, sub).value == m.(buys := MarkCancelled(m.buys, ids) + Keep(sub.orders, IsBuy),
                                      sells := MarkCancelled(m.sells, ids) + Keep(sub.orders, IsSell),
                                      nextOrderId := m.nextOrderId + |sub.orders|);
    BookStaysGood(m, ids, sub.orders, owner);
  }

  /** Flagging cancellations and appending fresh orders on their sides keeps
      the invariant. */
  lemma {:induction false} BookStaysGood(m: Market, ids: set<nat>, orders: seq<Order>, owner: nat)
    requires Good(m) && Fresh(orders, owner, m.nextOrderId) && owner < |m.traders|
    ensures Good(m.(buys := MarkCancelled(m.buys, ids) + Keep(orders, IsBuy),
                    sells := MarkCancelled(m.sells, ids) + Keep(orders, IsSell),
                    nextOrderId := m.nextOrderId + |orders|))
  {
    FreshIncreasing(orders, owner, m.nextOrderId);
    SideStaysListed(m.buys, ids, orders, Keep(orders, IsBuy), Buy, |m.traders|, owner, m.nextOrderId);
    SideStaysListed(m.sells, ids, orders, Keep(orders, IsSell), Sell, |m.traders|, owner, m.nextOrderId);
  }

  /** One side of the book after cancellations are flagged and that side's
      new orders are appended. */
  lemma {:induction false} SideStaysListed(s: seq<Order>, ids: set<nat>, orders: seq<Order>, added: seq<Order>, side: Side, n: nat, owner: nat, next: nat)
    requires AllListed(s, side, n) && IdsIncreasing(s) && IdsBelow(s, next)
    requires Fresh(orders, owner, next) && owner < n && IdsIncreasing(orders)
    requires forall o :: o in added <==> o in orders && o.side == side
    requires IdsIncreasing(added)
    ensures var r := MarkCancelled(s, ids) + added;
      AllListed(r, side, n) && IdsIncreasing(r) && IdsBelow(r, next + |orders|)
  {
    MarkCancelledListed(s, ids, side, n, next);
    AppendListed(MarkCancelled(s, ids), orders, added, side, n, owner, next);
  }

  lemma RejectedHadSell(m: Market, sub: Submission, owner: nat)
    requires Good(m) && Fresh(sub.orders, owner, m.nextOrderId)
    requires Amounts(sub.orders) && Accept(m, sub).Err?
    ensures exists k :: 0 <= k < |sub.orders| && sub.orders[k].side == Sell
  {
    assert forall k :: 0 <= k < |sub.orders| ==> sub.orders[k].ticksToLive > 0;
    var newSells := Keep(sub.orders, IsSell);
    assert |newSells| > 0;
    assert newSells[0] in sub.orders;
  }

  /** Trader i's successful submission, once listed, keeps the invariant. */
  lemma SubmitOneKeepsGood(m: Market, i: nat, sub: Submission)
    requires Good(m) && i < |m.traders| && Fresh(sub.orders, i, m.nextOrderId)
    requires Accept(m.(traders := m.traders[i := sub.trader]), sub).Ok?
    ensures Good(Accept(m.(traders := m.traders[i := sub.trader]), sub).value)
  {
    ReplaceTraderKeepsGood(m, i, sub.trader);
    AcceptKeepsGood(m.(traders := m.traders[i := sub.trader]), sub, i);
  }

  /** The invariant does not look inside the traders, only at how many there
      are. */
  lemma ReplaceTraderKeepsGood(m: Market, i: nat, t: Trader)
    requires Good(m) && i < |m.traders|
    ensures Good(m.(traders := m.traders[i := t]))
  {
  }

  /** A whole tick keeps the marketplace's invariant; on a well-numbered
      provider the tick count rises by exactly one. */
  lemma {:induction false} MakeTickKeepsGood(m: Market, draw: real)
    requires Good(m)
    ensures MakeTick(m, draw).Ok? ==> Good(MakeTick(m, draw).value)
    ensures MakeTick(m, draw).Ok? && WellNumbered(m.provider) ==>
      WellNumbered(MakeTick(m, draw).value.provider) &&
      ProviderTicks(MakeTick(m, draw).value.provider) == ProviderTicks(m.provider) + 1
  {
    if MakeTick(m, draw).Ok? {
      var p := ProviderTick(m.provider, draw).value;
      HandleExistingOrdersKeepsSurvivors(m.(provider := p));
      var m1 := HandleExistingOrders(m.(provider := p)).value;
      if |m1.traders| > 0 {
        var recent := Recent(ProviderPrices(m1.provider), TicksOfHistoryToProvide);
      }
      if WellNumbered(m.provider) {
        ProviderTickAdvancesByOne(m.provider, draw);
      }
    }
  }

  // ---------------------------------------------------------------------
  // The initial period

  /** One provider tick per draw. */
  function TickProvider(p: Provider, draws: seq<real>): Result<Provider>
    decreases |draws|
  {
    if |draws| == 0 then Ok(p)
    else
      var p1 :- ProviderTick(p, draws[0]);
      TickProvider(p1, draws[1..])
  }

  lemma {:induction false} TickProviderCounts(p: Provider, draws: seq<real>)
    requires WellNumbered(p)
    ensures TickProvider(p, draws).Ok?
    ensures WellNumbered(TickProvider(p, draws).value)
    ensures ProviderTicks(TickProvider(p, draws).value) == ProviderTicks(p) + |draws|
    decreases |draws|
  {
    if |draws| > 0 {
      ProviderTickAdvancesByOne(p, draws[0]);
      TickProviderCounts(ProviderTick(p, draws[0]).value, draws[1..]);
    }
  }

  /** RunForInitialPeriod: only on a fresh provider, ten ticks of price history
      without any trading; `draws` are the simulator's random numbers. */
  function RunForInitialPeriod(m: Market, draws: seq<real>): (r: Result<Market>)
    requires |draws| == TicksOfHistoryToProvide
    ensures ProviderTicks(m.provider) != 0 ==> r.Err?
    ensures r.Ok? ==> r.value == m.(provider := r.value.provider)
    ensures WellNumbered(m.provider) && ProviderTicks(m.provider) == 0 ==>
      r.Ok? && WellNumbered(r.value.provider) && ProviderTicks(r.value.provider) == TicksOfHistoryToProvide
  {
    if ProviderTicks(m.provider) != 0 then
      Err("Expecting this method will only be run at the very beginning, to generate first historical data")
    else
      TickProviderCountsIfWellNumbered(m.provider, draws);
      var p :- TickProvider(m.provider, draws);
      Ok(m.(provider := p))
  }

  lemma TickProviderCountsIfWellNumbered(p: Provider, draws: seq<real>)
    ensures WellNumbered(p) ==>
      TickProvider(p, draws).Ok? && WellNumbered(TickProvider(p, draws).value) &&
      ProviderTicks(TickProvider(p, draws).value) == ProviderTicks(p) + |draws|
  {
    if WellNumbered(p) {
      TickProviderCounts(p, draws);
    }
  }
}
