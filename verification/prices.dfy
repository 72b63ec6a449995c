/** The two price providers: the random-walk simulator of
    VolvasArena/AssetPriceSimulator.cs (the random draw is a parameter) and the
    fixed-list replay of VolvasArena/AssetPriceSimpleCSVReader.cs. */
module Prices {
  import opened Wrappers
  import opened Assets

  /** One weighted way the price can move in a tick. */
  datatype Alternative = Alternative(odds: real, change: real -> real)

  /** A price list is never empty: construction seeds the tick-0 price. */
  type PriceList = s: seq<AssetPrice> | |s| > 0 witness [AssetPrice(AssetType(""), 0, 0.0)]

  datatype Simulator = Simulator(assetType: AssetType, prices: PriceList, alternatives: seq<Alternative>)

  /** Ticks are numbered 0, 1, 2, ... in list order. */
  ghost predicate TicksConsecutiveFrom(s: seq<AssetPrice>, first: int) {
    forall i :: 0 <= i < |s| ==> s[i].tick == first + i
  }

  ghost predicate TicksIncreasing(s: seq<AssetPrice>) {
    forall i, j :: 0 <= i < j < |s| ==> s[i].tick < s[j].tick
  }

  function OddsSum(alts: seq<Alternative>): real
    decreases |alts|
  {
    if |alts| == 0 then 0.0 else OddsSum(alts[..|alts| - 1]) + alts[|alts| - 1].odds
  }

  /** The constructor: seeds the initial price at tick 0 and, as the DEBUG
      build does, rejects odds that do not sum to 1 within 1e-3. */
  function NewSimulator(t: AssetType, initialPrice: real, alts: seq<Alternative>): (r: Result<Simulator>)
    ensures r.Ok? <==> -0.001 <= OddsSum(alts) - 1.0 <= 0.001
    ensures r.Ok? ==> TicksSimulated(r.value) == 0 && LatestAssetPrice(r.value) == AssetPrice(t, 0, initialPrice)
    ensures r.Ok? ==> TicksConsecutiveFrom(r.value.prices, 0) && r.value.alternatives == alts
  {
    var d := OddsSum(alts) - 1.0;
    if d > 0.001 || d < -0.001 then Err("Expecting odds to sum up to 1")
    else Ok(Simulator(t, [AssetPrice(t, 0, initialPrice)], alts))
  }

  /** The largest tick in a non-empty list. */
  function MaxTick(s: seq<AssetPrice>): (m: int)
    requires |s| > 0
    ensures exists i :: 0 <= i < |s| && s[i].tick == m
    ensures forall i :: 0 <= i < |s| ==> s[i].tick <= m
    decreases |s|
  {
    if |s| == 1 then s[0].tick
    else
      var m := MaxTick(s[..|s| - 1]);
      assert forall i :: 0 <= i < |s| - 1 ==> s[..|s| - 1][i] == s[i];
      if s[|s| - 1].tick > m then s[|s| - 1].tick else m
  }

  /** Entry i is `e`, and no earlier entry has e's tick. */
  ghost predicate FirstAt(s: seq<AssetPrice>, i: int, e: AssetPrice) {
    0 <= i < |s| && s[i] == e && forall j :: 0 <= j < i ==> s[j].tick != e.tick
  }

  /** The first entry with the given tick, if any. */
  function FirstWithTick(s: seq<AssetPrice>, tick: int): (r: Option<AssetPrice>)
    ensures r.Some? <==> exists i :: 0 <= i < |s| && s[i].tick == tick
    ensures r.Some? ==> r.value.tick == tick && exists i :: FirstAt(s, i, r.value)
    decreases |s|
  {
    if |s| == 0 then None
    else if s[0].tick == tick then assert FirstAt(s, 0, s[0]); Some(s[0])
    else
      var r := FirstWithTick(s[1..], tick);
      assert forall i :: 0 < i < |s| ==> s[1..][i - 1] == s[i];
      assert r.Some? ==> (forall i :: FirstAt(s[1..], i, r.value) ==> FirstAt(s, i + 1, r.value));
      r
  }

  /** TicksSimulated: the maximum tick in the list. With the list numbered
      from 0 that is the number of ticks made after the seed price. */
  function TicksSimulated(sim: Simulator): (n: int)
    ensures exists i :: 0 <= i < |sim.prices| && sim.prices[i].tick == n
    ensures forall i :: 0 <= i < |sim.prices| ==> sim.prices[i].tick <= n
    ensures TicksConsecutiveFrom(sim.prices, 0) ==> n == |sim.prices| - 1
  {
    var n := MaxTick(sim.prices);
    assert TicksConsecutiveFrom(sim.prices, 0) ==> sim.prices[|sim.prices| - 1].tick == |sim.prices| - 1;
    n
  }

  /** LatestAssetPrice: the first entry whose tick is TicksSimulated. */
  function LatestAssetPrice(sim: Simulator): (r: AssetPrice)
    ensures r in sim.prices && r.tick == TicksSimulated(sim)
  {
    var o := FirstWithTick(sim.prices, MaxTick(sim.prices));
    o.value
  }

  /** With ticks numbered 0, 1, ... the simulator's tick count is one less than
      the list length and the latest price is the last entry. */
  lemma {:induction false} ConsecutiveLatestIsLast(sim: Simulator)
    requires TicksConsecutiveFrom(sim.prices, 0)
    ensures TicksSimulated(sim) == |sim.prices| - 1
    ensures LatestAssetPrice(sim) == sim.prices[|sim.prices| - 1]
  {
    var s := sim.prices;
    var m := MaxTick(s);
    assert s[|s| - 1].tick == |s| - 1;
    assert m == |s| - 1;
    var o := FirstWithTick(s, m);
    var i :| FirstAt(s, i, o.value);
    assert i == |s| - 1;
  }

  /** Sum of the first n odds. */
  function PrefixOdds(alts: seq<Alternative>, n: nat): real
    requires n <= |alts|
  {
    if n == 0 then 0.0 else PrefixOdds(alts, n - 1) + alts[n - 1].odds
  }

  /** The selection loop of MakeTick from index i on, with the draw already
      reduced by the odds of the alternatives before i. */
  function ChooseFrom(alts: seq<Alternative>, chance: real, i: nat): (k: nat)
    requires i < |alts|
    ensures i <= k < |alts|
    decreases |alts| - i
  {
    if i == |alts| - 1 then i
    else if chance < alts[i].odds then i
    else ChooseFrom(alts, chance - alts[i].odds, i + 1)
  }

  /** The index of the alternative chosen for draw `r`. */
  function ChooseAlternative(alts: seq<Alternative>, draw: real): (k: nat)
    requires |alts| > 0
    ensures k < |alts|
  {
    ChooseFrom(alts, draw, 0)
  }

  lemma {:induction false} ChooseFromSpec(alts: seq<Alternative>, draw: real, i: nat)
    requires i < |alts|
    ensures var k := ChooseFrom(alts, draw - PrefixOdds(alts, i), i);
      i <= k < |alts| &&
      (forall j :: i < j <= k ==> draw >= PrefixOdds(alts, j)) &&
      (k < |alts| - 1 ==> draw < PrefixOdds(alts, k + 1))
    decreases |alts| - i
  {
    var chance := draw - PrefixOdds(alts, i);
    if i == |alts| - 1 {
    } else if chance < alts[i].odds {
    } else {
      assert chance - alts[i].odds == draw - PrefixOdds(alts, i + 1);
      ChooseFromSpec(alts, draw, i + 1);
    }
  }

  /** For draw r the chosen alternative is the first i < n-1 whose cumulative
      odds exceed r, and the last alternative when there is none. */
  lemma ChooseAlternativeIsFirstCumulative(alts: seq<Alternative>, draw: real)
    requires |alts| > 0
    ensures var k := ChooseAlternative(alts, draw);
      k < |alts| &&
      (forall j :: 0 < j <= k ==> draw >= PrefixOdds(alts, j)) &&
      (k < |alts| - 1 ==> draw < PrefixOdds(alts, k + 1))
  {
    ChooseFromSpec(alts, draw, 0);
  }

  /** MakeTick: appends one price, one tick after the last entry, moved by the
      chosen alternative. Fails where the source throws: no alternatives, or
      (DEBUG) the last entry not holding the largest tick or a tick repeated. */
  function SimulatorTick(sim: Simulator, draw: real): (r: Result<Simulator>)
    ensures TicksConsecutiveFrom(sim.prices, 0) && |sim.alternatives| > 0 ==> r.Ok?
    ensures r.Ok? ==> |sim.alternatives| > 0
    ensures r.Ok? ==>
      (var cur := sim.prices[|sim.prices| - 1];
       var alt := sim.alternatives[ChooseAlternative(sim.alternatives, draw)];
       r.value == sim.(prices := sim.prices + [AssetPrice(sim.assetType, cur.tick + 1, alt.change(cur.price))]))
    ensures r.Ok? && TicksConsecutiveFrom(sim.prices, 0) ==>
      TicksConsecutiveFrom(r.value.prices, 0) && TicksSimulated(r.value) == TicksSimulated(sim) + 1
  {
    var cur := sim.prices[|sim.prices| - 1];
    if |sim.alternatives| == 0 then Err("Sequence contains no elements")
    else if cur.tick != MaxTick(sim.prices) then Err("Assuming current will always have largest tick")
    else if !NoRepeatedTick(sim.prices) then Err("Expecting ticks to be strictly increasing")
    else
      var alt := sim.alternatives[ChooseAlternative(sim.alternatives, draw)];
      var next := sim.(prices := sim.prices + [AssetPrice(sim.assetType, cur.tick + 1, alt.change(cur.price))]);
      TickAfterAppend(sim, next);
      Ok(next)
  }

  lemma TickAfterAppend(sim: Simulator, next: Simulator)
    requires |next.prices| == |sim.prices| + 1 && next.prices[..|sim.prices|] == sim.prices
    requires next.prices[|sim.prices|].tick == sim.prices[|sim.prices| - 1].tick + 1
    ensures TicksConsecutiveFrom(sim.prices, 0) ==>
      TicksConsecutiveFrom(next.prices, 0) && TicksSimulated(next) == TicksSimulated(sim) + 1
  {
    if TicksConsecutiveFrom(sim.prices, 0) {
      assert forall i :: 0 <= i < |sim.prices| ==> next.prices[i] == sim.prices[i];
      ConsecutiveLatestIsLast(sim);
      ConsecutiveLatestIsLast(next);
    }
  }

  /** Executable form of "no tick occurs twice". */
  predicate NoRepeatedTick(s: seq<AssetPrice>) {
    forall i, j :: 0 <= i < j < |s| ==> s[i].tick != s[j].tick
  }

  // ---------------------------------------------------------------------
  // Replay of a loaded list

  /** The replay provider: the loaded list and a tick counter. */
  datatype Replay = Replay(assetType: AssetType, loaded: seq<AssetPrice>, ticksSimulated: nat)

  /** Numbers parsed prices consecutively from tick 1, as the loader does. */
  method NumberPrices(t: AssetType, values: seq<real>) returns (data: seq<AssetPrice>)
    ensures |data| == |values|
    ensures TicksConsecutiveFrom(data, 1)
    ensures forall i :: 0 <= i < |data| ==> data[i].price == values[i] && data[i].asset == t
  {
    data := [];
    var tick := 1;
    var k := 0;
    while k < |values|
      invariant 0 <= k <= |values| && |data| == k && tick == k + 1
      invariant TicksConsecutiveFrom(data, 1)
      invariant forall i :: 0 <= i < k ==> data[i].price == values[i] && data[i].asset == t
    {
      data := data + [AssetPrice(t, tick, values[k])];
      tick := tick + 1;
      k := k + 1;
    }
  }

  function NewReplay(t: AssetType, loaded: seq<AssetPrice>): (r: Replay)
    ensures r.ticksSimulated == 0 && ReplayPrices(r) == []
  {
    Replay(t, loaded, 0)
  }

  /** MakeTick: only the counter moves; nothing is checked. */
  function ReplayTick(r: Replay): (r': Replay)
    ensures r'.ticksSimulated == r.ticksSimulated + 1 && r'.loaded == r.loaded
  {
    r.(ticksSimulated := r.ticksSimulated + 1)
  }

  /** TotalTicksAvaliable: the number of loaded prices; with the loader's
      numbering from 1 it is the tick of the last one, and no loaded price
      has a later tick. */
  function TotalTicksAvailable(r: Replay): (n: nat)
    ensures TicksConsecutiveFrom(r.loaded, 1) && |r.loaded| > 0 ==> n == r.loaded[|r.loaded| - 1].tick
    ensures TicksConsecutiveFrom(r.loaded, 1) ==> forall i :: 0 <= i < |r.loaded| ==> 1 <= r.loaded[i].tick <= n
  {
    |r.loaded|
  }

  /** AssetPrices: the first TicksSimulated loaded entries (Take stops at the
      end of the list). */
  function ReplayPrices(r: Replay): (s: seq<AssetPrice>)
    ensures |s| <= r.ticksSimulated && |s| <= TotalTicksAvailable(r)
    ensures r.ticksSimulated <= TotalTicksAvailable(r) ==> |s| == r.ticksSimulated
    ensures r.ticksSimulated >= TotalTicksAvailable(r) ==> s == r.loaded
    ensures s <= r.loaded
  {
    if r.ticksSimulated <= |r.loaded| then r.loaded[..r.ticksSimulated] else r.loaded
  }

  /** A tick reveals the next loaded entry, if any is left, and hides none. */
  lemma ReplayTickReveals(r: Replay)
    ensures ReplayPrices(r) <= ReplayPrices(ReplayTick(r))
    ensures r.ticksSimulated < TotalTicksAvailable(r) ==>
      ReplayPrices(ReplayTick(r)) == ReplayPrices(r) + [r.loaded[r.ticksSimulated]]
    ensures r.ticksSimulated >= TotalTicksAvailable(r) ==> ReplayPrices(ReplayTick(r)) == ReplayPrices(r)
  {
    if r.ticksSimulated < |r.loaded| {
      assert r.loaded[..r.ticksSimulated + 1] == r.loaded[..r.ticksSimulated] + [r.loaded[r.ticksSimulated]];
    }
  }

  /** LatestAssetPrice: entry TicksSimulated - 1, out of range otherwise. */
  function ReplayLatest(r: Replay): (p: Result<AssetPrice>)
    ensures p.Ok? <==> 1 <= r.ticksSimulated <= TotalTicksAvailable(r)
    ensures p.Ok? ==> p.value == r.loaded[r.ticksSimulated - 1]
  {
    if 1 <= r.ticksSimulated <= |r.loaded| then Ok(r.loaded[r.ticksSimulated - 1])
    else Err("Index was out of range")
  }

  /** With the loader's numbering, the latest entry's tick equals TicksSimulated
      and it is the last of AssetPrices. */
  lemma ReplayLatestTick(r: Replay)
    requires TicksConsecutiveFrom(r.loaded, 1)
    requires 1 <= r.ticksSimulated <= TotalTicksAvailable(r)
    ensures ReplayLatest(r).value.tick == r.ticksSimulated
    ensures ReplayLatest(r).value == ReplayPrices(r)[|ReplayPrices(r)| - 1]
  {
  }

  // ---------------------------------------------------------------------
  // The provider interface

  datatype Provider = Simulated(sim: Simulator) | Replayed(replay: Replay)

  function ProviderTicks(p: Provider): int {
    match p
    case Simulated(s) => TicksSimulated(s)
    case Replayed(r) => r.ticksSimulated
  }

  function ProviderPrices(p: Provider): seq<AssetPrice> {
    match p
    case Simulated(s) => s.prices
    case Replayed(r) => ReplayPrices(r)
  }

  function ProviderLatest(p: Provider): Result<AssetPrice> {
    match p
    case Simulated(s) => Ok(LatestAssetPrice(s))
    case Replayed(r) => ReplayLatest(r)
  }

  /** One MakeTick of whichever provider; `draw` is the simulator's random
      number and is ignored by the replay. */
  function ProviderTick(p: Provider, draw: real): (r: Result<Provider>)
    ensures r.Ok? ==> r.value.Simulated? == p.Simulated?
    ensures p.Replayed? ==> r.Ok? && r.value.replay == ReplayTick(p.replay)
    ensures p.Simulated? ==>
      (r.Ok? <==> SimulatorTick(p.sim, draw).Ok?) &&
      (r.Ok? ==> r.value.sim == SimulatorTick(p.sim, draw).value)
  {
    match p
    case Simulated(s) =>
      var s' :- SimulatorTick(s, draw);
      Ok(Simulated(s'))
    case Replayed(r) => Ok(Replayed(ReplayTick(r)))
  }

  /** A provider whose ticks are numbered the way its implementation numbers
      them. */
  ghost predicate WellNumbered(p: Provider) {
    match p
    case Simulated(s) => TicksConsecutiveFrom(s.prices, 0) && |s.alternatives| > 0
    case Replayed(r) => TicksConsecutiveFrom(r.loaded, 1)
  }

  /** A well-numbered provider never fails to tick, stays well-numbered and its
      tick count rises by exactly one. */
  lemma ProviderTickAdvancesByOne(p: Provider, draw: real)
    requires WellNumbered(p)
    ensures ProviderTick(p, draw).Ok?
    ensures WellNumbered(ProviderTick(p, draw).value)
    ensures ProviderTicks(ProviderTick(p, draw).value) == ProviderTicks(p) + 1
  {
  }

  // ---------------------------------------------------------------------
  // The history handed to traders

  /** The (up to) ten most recent prices, newest first: the list's suffix
      reversed, which is OrderByDescending(tick).Take(10) for increasing ticks. */
  function Recent(s: seq<AssetPrice>, n: nat): (r: seq<AssetPrice>)
    ensures |r| == if |s| < n then |s| else n
    ensures forall i :: 0 <= i < |r| ==> r[i] == s[|s| - 1 - i]
    decreases n
  {
    if n == 0 || |s| == 0 then []
    else [s[|s| - 1]] + Recent(s[..|s| - 1], n - 1)
  }

  /** For increasing ticks the recent list is ordered by descending tick, and
      every price left out has a smaller tick than every price kept. */
  lemma RecentIsNewestFirst(s: seq<AssetPrice>, n: nat)
    requires TicksIncreasing(s)
    ensures var r := Recent(s, n);
      (forall i, j :: 0 <= i < j < |r| ==> r[i].tick > r[j].tick) &&
      (forall i, k :: 0 <= i < |r| && 0 <= k < |s| - |r| ==> s[k].tick < r[i].tick)
  {
  }
}
