/** One simulated round and the bot factories (BotArena in
    VolvasArena/BotArena.cs). A round warms the price provider up, subscribes
    the bots, runs the ticks, scores every bot and then disposes of it. The
    provider's random numbers are the `draws` parameter. */
module Arena {
  import opened Wrappers
  import opened Assets
  import opened Fees
  import opened Prices
  import opened Orders
  import opened Strategy
  import opened Traders
  import opened Market

  /** A freshly created bot and the money it started with. */
  datatype BirthCertificate = BirthCertificate(bot: Trader, startMoney: real)

  /** TraderBotScoreCard. The relative profit is absent when the bot started
      with no money (the division has no real value there). */
  datatype ScoreCard = ScoreCard(
    name: string,
    totalRealizedProfit: real,
    relativeRealizedProfit: Option<real>,
    currentTotalAssets: real,
    totalTransactionCost: real,
    totalNumberOfTransactions: nat,
    initialAvailableFunds: real)

  /** TraderBotEvaluator.Evaluate: the scorecard of a bot as it stands. */
  function Evaluate(c: BirthCertificate): (s: ScoreCard)
    ensures s.name == c.bot.name && s.initialAvailableFunds == c.startMoney
    ensures s.totalRealizedProfit == c.bot.realizedProfit && s.totalTransactionCost == c.bot.transactionCost
    ensures s.currentTotalAssets == CurrentTotalAssets(c.bot) && s.totalNumberOfTransactions == |c.bot.completed|
    ensures s.relativeRealizedProfit.Some? <==> c.startMoney != 0.0
    ensures s.relativeRealizedProfit.Some? ==> s.relativeRealizedProfit.value * c.startMoney == c.bot.realizedProfit
  {
    var relative := if c.startMoney == 0.0 then None else Some(c.bot.realizedProfit / c.startMoney);
    ScoreCard(c.bot.name, c.bot.realizedProfit, relative, CurrentTotalAssets(c.bot),
              c.bot.transactionCost, |c.bot.completed|, c.startMoney)
  }

  // ---------------------------------------------------------------------
  // Bot factories

  /** The two factories. `nameOf` stands for the start-money factory's
      "M{money:N1}" name formatting. */
  datatype BotFactory =
    | DifferentStrategies(money: real, assetType: AssetType,
                          buys: seq<(string, BuyStrategy)>, sells: seq<(string, SellStrategy)>)
    | DifferentStartMoney(minValue: real, maxValue: real, numberToCreate: int, assetType: AssetType,
                          buy: BuyStrategy, sell: SellStrategy, nameOf: real -> string)

  /** The start-money factory's constructor rejects an empty money range. */
  function NewDifferentStartMoney(minValue: real, maxValue: real, n: int, t: AssetType,
                                  buy: BuyStrategy, sell: SellStrategy, nameOf: real -> string): (r: Result<BotFactory>)
    ensures r.Ok? <==> minValue < maxValue
    ensures r.Ok? ==> r.value == DifferentStartMoney(minValue, maxValue, n, t, buy, sell, nameOf)
  {
    if maxValue <= minValue then Err("maxValue must exceed minValue")
    else Ok(DifferentStartMoney(minValue, maxValue, n, t, buy, sell, nameOf))
  }

  /** ITraderBotFactory.NumberThatWillBeCreated: the strategies factory
      announces one bot per pair; a non-negative announcement is exactly
      the number Create yields, and a negative one yields none. */
  function NumberThatWillBeCreated(f: BotFactory): (r: int)
    ensures f.DifferentStrategies? ==> r >= 0
    ensures r >= 0 ==> r == |Create(f)|
    ensures r < 0 ==> Create(f) == []
  {
    match f
    case DifferentStrategies(_, _, buys, sells) => |buys| * |sells|
    case DifferentStartMoney(_, _, n, _, _, _, _) => n
  }

  /** The bot pairing a buy and a sell strategy, named "buy - sell". */
  function Pairing(money: real, t: AssetType, b: (string, BuyStrategy), s: (string, SellStrategy)): BirthCertificate {
    BirthCertificate(NewTrader(b.0 + " - " + s.0, money, t, b.1, s.1), money)
  }

  function PairingRow(money: real, t: AssetType, b: (string, BuyStrategy), sells: seq<(string, SellStrategy)>): (r: seq<BirthCertificate>)
    ensures |r| == |sells|
    ensures forall j :: 0 <= j < |sells| ==> r[j] == Pairing(money, t, b, sells[j])
  {
    seq(|sells|, j requires 0 <= j < |sells| => Pairing(money, t, b, sells[j]))
  }

  /** Every buy strategy with every sell strategy, buy-major: the nested
      loops of the strategies factory, flattened. */
  function PairingGrid(money: real, t: AssetType, buys: seq<(string, BuyStrategy)>, sells: seq<(string, SellStrategy)>): (r: seq<BirthCertificate>)
    ensures |r| == |buys| * |sells|
  {
    var m := |sells|;
    seq(|buys| * m, k requires 0 <= k < |buys| * m =>
      DivBelow(k, |buys|, m);
      Pairing(money, t, buys[k / m], sells[k % m]))
  }

  /** The bot created in the i-th outer and j-th inner iteration sits at
      position i·|sells| + j and pairs the i-th buy with the j-th sell
      strategy. */
  lemma {:induction false} PairingGridOrder(money: real, t: AssetType, buys: seq<(string, BuyStrategy)>, sells: seq<(string, SellStrategy)>)
    ensures forall i, j :: 0 <= i < |buys| && 0 <= j < |sells| ==> PairedAt(money, t, buys, sells, i, j)
  {
    forall i, j | 0 <= i < |buys| && 0 <= j < |sells|
      ensures PairedAt(money, t, buys, sells, i, j)
    {
      PairingGridAt(money, t, buys, sells, i, j);
    }
  }

  /** Position i·|sells| + j of the grid holds the i-th buy paired with the
      j-th sell strategy. */
  ghost predicate PairedAt(money: real, t: AssetType, buys: seq<(string, BuyStrategy)>, sells: seq<(string, SellStrategy)>, i: int, j: int)
    requires 0 <= i < |buys| && 0 <= j < |sells|
  {
    var k := i * |sells| + j;
    k < |PairingGrid(money, t, buys, sells)| &&
    PairingGrid(money, t, buys, sells)[k] == Pairing(money, t, buys[i], sells[j])
  }

  lemma {:induction false} PairingGridAt(money: real, t: AssetType, buys: seq<(string, BuyStrategy)>, sells: seq<(string, SellStrategy)>, i: nat, j: nat)
    requires i < |buys| && j < |sells|
    ensures i * |sells| + j < |PairingGrid(money, t, buys, sells)|
    ensures PairingGrid(money, t, buys, sells)[i * |sells| + j] == Pairing(money, t, buys[i], sells[j])
  {
    var m := |sells|;
    DivModOf(i, j, m);
    MulMono(i + 1, |buys|, m);
    assert (i + 1) * m == i * m + m;
  }

  lemma MulMono(a: nat, b: nat, m: nat)
    requires a <= b
    ensures a * m <= b * m
  {
    assert b * m == a * m + (b - a) * m;
  }

  lemma DivBelow(k: nat, n: nat, m: nat)
    requires k < n * m
    ensures m > 0 && k / m < n
  {
    if m > 0 {
      var q := k / m;
      assert q * m + k % m == k;
      if q >= n {
        MulMono(n, q, m);
      }
    }
  }

  lemma {:induction false} DivModOf(i: nat, j: nat, m: nat)
    requires j < m
    ensures (i * m + j) / m == i && (i * m + j) % m == j
  {
    var k := i * m + j;
    var q := k / m;
    var r := k % m;
    assert q * m + r == i * m + j;
    assert (q - i) * m == j - r;
    if q > i {
      MulMono(1, q - i, m);
    } else if q < i {
      MulMono(1, i - q, m);
    }
  }

  /** The i-th start-money bot starts with min + i·(max − min)/(n − 1). */
  function StartMoney(minValue: real, maxValue: real, n: int, i: int): real {
    if n >= 2 then minValue + i as real * ((maxValue - minValue) / (n - 1) as real) else minValue
  }

  /** ITraderBotFactory.Create. */
  function Create(f: BotFactory): (r: seq<BirthCertificate>)
    ensures f.DifferentStrategies? ==> r == PairingGrid(f.money, f.assetType, f.buys, f.sells)
    ensures f.DifferentStartMoney? ==> |r| == (if f.numberToCreate > 0 then f.numberToCreate else 0)
    ensures f.DifferentStartMoney? ==> forall i :: 0 <= i < |r| ==>
      var money := StartMoney(f.minValue, f.maxValue, f.numberToCreate, i);
      r[i] == BirthCertificate(NewTrader(f.nameOf(money), money, f.assetType, f.buy, f.sell), money)
  {
    match f
    case DifferentStrategies(money, t, buys, sells) => PairingGrid(money, t, buys, sells)
    case DifferentStartMoney(lo, hi, n, t, buy, sell, nameOf) =>
      var count := if n > 0 then n else 0;
      seq(count, i requires 0 <= i < count =>
        var money := StartMoney(lo, hi, n, i);
        BirthCertificate(NewTrader(nameOf(money), money, t, buy, sell), money))
  }

  /** Every certificate records the starting cash of its bot, and a factory
      creates exactly the number of bots it announces (when that number is not
      negative). */
  lemma CreateMatchesAnnouncement(f: BotFactory)
    ensures forall i :: 0 <= i < |Create(f)| ==> Create(f)[i].bot.money == Create(f)[i].startMoney
    ensures NumberThatWillBeCreated(f) >= 0 ==> |Create(f)| == NumberThatWillBeCreated(f)
  {
  }

  /** The start money rises by equal steps from the minimum to exactly the
      maximum. */
  lemma StartMoneySpansRange(f: BotFactory)
    requires f.DifferentStartMoney? && f.minValue < f.maxValue && f.numberToCreate >= 2
    ensures Create(f)[0].startMoney == f.minValue
    ensures Create(f)[f.numberToCreate - 1].startMoney == f.maxValue
    ensures forall i :: 0 < i < |Create(f)| ==> Create(f)[i - 1].startMoney < Create(f)[i].startMoney
  {
    var n := f.numberToCreate;
    var step := (f.maxValue - f.minValue) / (n - 1) as real;
    assert step > 0.0;
    assert (n - 1) as real * step == f.maxValue - f.minValue;
    var c := Create(f);
    forall i | 0 < i < |c|
      ensures c[i - 1].startMoney < c[i].startMoney
    {
      assert c[i].startMoney == StartMoney(f.minValue, f.maxValue, n, i);
      assert c[i - 1].startMoney == StartMoney(f.minValue, f.maxValue, n, i - 1);
      StartMoneyRises(f.minValue, f.maxValue, n, i);
    }
  }

  lemma StartMoneyRises(lo: real, hi: real, n: int, i: int)
    requires lo < hi && n >= 2 && i > 0
    ensures StartMoney(lo, hi, n, i - 1) < StartMoney(lo, hi, n, i)
  {
    var step := (hi - lo) / (n - 1) as real;
    assert step > 0.0;
    assert i as real * step == (i - 1) as real * step + step;
  }

  // ---------------------------------------------------------------------
  // One round

  /** Number of ticks a `for (tick = 0; tick < k; tick++)` loop runs. */
  function LoopCount(k: int): nat {
    if k > 0 then k else 0
  }

  /** One MakeTick per draw. */
  function MakeTicks(m: Market, draws: seq<real>): (r: Result<Market>)
    requires Amounts(m.buys) && Amounts(m.sells)
    ensures r.Ok? ==> |r.value.traders| == |m.traders| && r.value.fees == m.fees
    ensures r.Ok? ==> Amounts(r.value.buys) && Amounts(r.value.sells)
    decreases |draws|
    ensures r.Ok? ==> SameBots(r.value.traders, m.traders)
  {
    if |draws| == 0 then Ok(m)
    else
      var m1 :- MakeTick(m, draws[0]);
      MakeTicks(m1, draws[1..])
  }

  lemma {:induction false} MakeTicksKeepsGood(m: Market, draws: seq<real>)
    requires Good(m)
    ensures MakeTicks(m, draws).Ok? ==> Good(MakeTicks(m, draws).value)
    ensures MakeTicks(m, draws).Ok? && WellNumbered(m.provider) ==>
      WellNumbered(MakeTicks(m, draws).value.provider) &&
      ProviderTicks(MakeTicks(m, draws).value.provider) == ProviderTicks(m.provider) + |draws|
    decreases |draws|
  {
    if |draws| > 0 {
      MakeTickKeepsGood(m, draws[0]);
      if MakeTick(m, draws[0]).Ok? {
        MakeTicksKeepsGood(MakeTick(m, draws[0]).value, draws[1..]);
      }
    }
  }

  /** The result of a round: one scorecard per bot, the provider, the bots as
      they were scored, and the bots after disposal. */
  datatype Round = Round(scoreCards: seq<ScoreCard>, provider: Provider, scored: seq<Trader>, disposed: seq<Trader>)

  function Bots(certs: seq<BirthCertificate>): (r: seq<Trader>)
    ensures |r| == |certs| && forall i :: 0 <= i < |certs| ==> r[i] == certs[i].bot
  {
    seq(|certs|, i requires 0 <= i < |certs| => certs[i].bot)
  }

  /** RunOneSimulation: warm-up, then subscription of the created bots, then
      the round's ticks; every bot is scored (in creation order) before any is
      disposed of. The scored bots are the created ones, each still under its
      own name, asset type and strategies. */
  function RunOneSimulation(provider: Provider, fees: FeeSchedule, certs: seq<BirthCertificate>,
                            ticksInRound: int, draws: seq<real>): (r: Result<Round>)
    requires |draws| == TicksOfHistoryToProvide + LoopCount(ticksInRound)
    ensures r.Ok? ==> |r.value.scoreCards| == |certs| && |r.value.scored| == |certs| && |r.value.disposed| == |certs|
    ensures r.Ok? ==> forall i :: 0 <= i < |certs| ==>
      r.value.scoreCards[i] == Evaluate(BirthCertificate(r.value.scored[i], certs[i].startMoney)) &&
      r.value.disposed[i] == Dispose(r.value.scored[i])
    ensures r.Ok? ==> forall i :: 0 <= i < |certs| ==>
      r.value.disposed[i].outstandingBuys == [] && r.value.disposed[i].outstandingSells == []
    ensures r.Ok? ==> forall i :: 0 <= i < |certs| ==> SameBot(r.value.scored[i], certs[i].bot)
  {
    var m0 := NewMarket(provider, fees);
    var m1 :- RunForInitialPeriod(m0, draws[..TicksOfHistoryToProvide]);
    var m2 := SubscribeRange(m1, Bots(certs));
    var m3 :- MakeTicks(m2, draws[TicksOfHistoryToProvide..]);
    SubscribedBotsKept(certs, m1.traders, m3.traders);
    Ok(ScoreRound(certs, m3))
  }

  /** Bots subscribed to an empty marketplace are, position by position, the
      traders it ends with, as long as every step keeps each participant. */
  lemma SubscribedBotsKept(certs: seq<BirthCertificate>, before: seq<Trader>, after: seq<Trader>)
    requires before == [] && SameBots(after, before + Bots(certs))
    ensures |after| == |certs| && forall i :: 0 <= i < |certs| ==> SameBot(after[i], certs[i].bot)
  {
    assert before + Bots(certs) == Bots(certs);
  }

  /** The end of a round: every bot's scorecard, then every bot disposed of. */
  function ScoreRound(certs: seq<BirthCertificate>, m: Market): (r: Round)
    requires |m.traders| == |certs|
    ensures r.provider == m.provider && r.scored == m.traders
    ensures |r.scoreCards| == |certs| && |r.disposed| == |certs|
    ensures forall i :: 0 <= i < |certs| ==>
      r.scoreCards[i] == Evaluate(BirthCertificate(r.scored[i], certs[i].startMoney)) &&
      r.disposed[i] == Dispose(r.scored[i])
  {
    var cards := seq(|certs|, i requires 0 <= i < |certs| => Evaluate(BirthCertificate(m.traders[i], certs[i].startMoney)));
    var disposed := seq(|certs|, i requires 0 <= i < |certs| => Dispose(m.traders[i]));
    Round(cards, m.provider, m.traders, disposed)
  }

  /** On a fresh, well-numbered provider a successful round leaves it at
      exactly ten warm-up ticks plus the round's ticks. */
  lemma {:induction false} RoundTickCount(provider: Provider, fees: FeeSchedule, certs: seq<BirthCertificate>, ticksInRound: int, draws: seq<real>)
    requires |draws| == TicksOfHistoryToProvide + LoopCount(ticksInRound)
    requires WellNumbered(provider) && ProviderTicks(provider) == 0
    ensures RunOneSimulation(provider, fees, certs, ticksInRound, draws).Ok? ==>
      ProviderTicks(RunOneSimulation(provider, fees, certs, ticksInRound, draws).value.provider) ==
        TicksOfHistoryToProvide + LoopCount(ticksInRound)
  {
    var m0 := NewMarket(provider, fees);
    var m1 := RunForInitialPeriod(m0, draws[..TicksOfHistoryToProvide]);
    if m1.Ok? {
      var m2 := SubscribeRange(m1.value, Bots(certs));
      MakeTicksKeepsGood(m2, draws[TicksOfHistoryToProvide..]);
    }
  }
}
