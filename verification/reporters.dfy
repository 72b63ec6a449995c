/** The two reporters' bookkeeping (VolvasArena/SimulationResultsReporter.cs
    and VolvasArena/ScorecardReporter.cs): one column of scorecards per bot, a
    count of finished rounds, and the predicate deciding when a progress line
    is due. The clock is the `elapsedMs` parameter; printing, locks and files
    are not modelled. */
module Reporters {
  import opened Wrappers
  import opened Prices
  import Arena

  /** (int)Math.Sqrt(n) for a non-negative int: the integer square root. */
  function IntSqrt(n: nat): (r: nat)
    ensures r * r <= n < (r + 1) * (r + 1)
  {
    if n == 0 then 0
    else
      var s := IntSqrt(n - 1);
      assert (s + 2) * (s + 2) == (s + 1) * (s + 1) + 2 * s + 3;
      if (s + 1) * (s + 1) <= n then s + 1 else s
  }

  /** From four rounds on the report interval is at least two. */
  lemma IntSqrtAtLeastTwo(n: nat)
    requires n >= 4
    ensures IntSqrt(n) >= 2
  {
  }

  /** The state both reporters share. `interval` is the report interval;
      for a negative round count the model fixes it at 0 (no call can get far
      enough to use it). */
  datatype Bookkeeping = Bookkeeping(total: int, interval: int, done: nat, columns: seq<seq<Arena.ScoreCard>>)

  /** The interval agrees with the round count, and the count of finished
      rounds never exceeds it. */
  ghost predicate WellFormed(b: Bookkeeping) {
    (b.total >= 0 ==> b.interval == IntSqrt(b.total)) && (b.done >= 1 ==> b.done <= b.total)
  }

  /** The constructors: one empty column per bot the factory will create;
      Enumerable.Range rejects a negative count. */
  function NewBookkeeping(total: int, botCount: int): (r: Result<Bookkeeping>)
    ensures r.Ok? <==> botCount >= 0
    ensures r.Ok? ==> WellFormed(r.value) && r.value.done == 0 && r.value.total == total
    ensures r.Ok? ==> |r.value.columns| == botCount && forall i :: 0 <= i < botCount ==> r.value.columns[i] == []
  {
    if botCount < 0 then Err("count is less than 0")
    else Ok(Bookkeeping(total, if total >= 0 then IntSqrt(total) else 0, 0, seq(botCount, _ => [])))
  }

  /** The append loop: scorecard i goes to the end of column i; a scorecard
      with no column is an index error. */
  function AppendColumns(columns: seq<seq<Arena.ScoreCard>>, cards: seq<Arena.ScoreCard>): (r: Result<seq<seq<Arena.ScoreCard>>>)
    ensures r.Ok? <==> |cards| <= |columns|
    ensures r.Ok? ==> |r.value| == |columns|
    ensures r.Ok? ==> forall i :: 0 <= i < |cards| ==> r.value[i] == columns[i] + [cards[i]]
    ensures r.Ok? ==> forall i :: |cards| <= i < |columns| ==> r.value[i] == columns[i]
    decreases |cards|
  {
    if |cards| > |columns| then Err("Index was outside the bounds of the array")
    else if |cards| == 0 then Ok(columns)
    else
      var k := |cards| - 1;
      var before := AppendColumns(columns, cards[..k]).value;
      Ok(before[k := before[k] + [cards[k]]])
  }

  /** The locked part of AddScorecard: append, count, and fail once the count
      passes the number of rounds. */
  function Record(b: Bookkeeping, cards: seq<Arena.ScoreCard>): (r: Result<Bookkeeping>)
    requires WellFormed(b)
    ensures r.Ok? <==> |cards| <= |b.columns| && b.done + 1 <= b.total
    ensures r.Ok? ==> WellFormed(r.value)
    ensures r.Ok? ==> r.value.done == b.done + 1 && r.value.total == b.total && r.value.interval == b.interval
    ensures r.Ok? ==> Ok(r.value.columns) == AppendColumns(b.columns, cards)
  {
    var columns :- AppendColumns(b.columns, cards);
    var b' := b.(columns := columns, done := b.done + 1);
    if b'.done > b'.total then Err("Unexpected, done count should never exceed total number of simulations to run")
    else Ok(b')
  }

  /** A progress line: rounds done, rounds in total and the estimated
      remaining milliseconds. */
  datatype Progress = Progress(done: nat, total: int, remainingMs: real)

  /** The estimate: time per round so far times the rounds left. */
  function Estimate(b: Bookkeeping, elapsedMs: real): (p: Progress)
    requires b.done >= 1
    ensures p.done == b.done && p.total == b.total
    ensures b.done == b.total ==> p.remainingMs == 0.0
    ensures elapsedMs >= 0.0 && b.done <= b.total ==> p.remainingMs >= 0.0
    ensures p.remainingMs * b.done as real == elapsedMs * (b.total - b.done) as real
  {
    var perRound := elapsedMs / b.done as real;
    Progress(b.done, b.total, perRound * (b.total - b.done) as real)
  }

  /** SimulationResultsReporter's condition for a progress line. The interval
      is never zero where it is used. */
  predicate ResultsReportDue(b: Bookkeeping)
    requires WellFormed(b) && b.done >= 1
  {
    b.done < 5 || (IntervalPositive(b); b.done % b.interval == 0) || b.done == b.total
  }

  /** ScorecardReporter's condition: the same without the final round. */
  predicate ScorecardReportDue(b: Bookkeeping)
    requires WellFormed(b) && b.done >= 1
  {
    b.done < 5 || (IntervalPositive(b); b.done % b.interval == 0)
  }

  lemma IntervalPositive(b: Bookkeeping)
    requires WellFormed(b) && b.done >= 5
    ensures b.interval >= 2
  {
    IntSqrtAtLeastTwo(b.total);
  }

  // ---------------------------------------------------------------------
  // SimulationResultsReporter

  datatype SimulationResults = SimulationResults(book: Bookkeeping, priceSeries: seq<seq<real>>)

  function NewSimulationResults(total: int, botCount: int): (r: Result<SimulationResults>)
    ensures r.Ok? <==> botCount >= 0
    ensures r.Ok? ==> Ok(r.value.book) == NewBookkeeping(total, botCount) && r.value.priceSeries == []
  {
    var book :- NewBookkeeping(total, botCount);
    Ok(SimulationResults(book, []))
  }

  /** AddScorecard: bookkeeping, then a progress line when one is due. */
  function AddScorecard(rep: SimulationResults, cards: seq<Arena.ScoreCard>, elapsedMs: real): (r: Result<(SimulationResults, Option<Progress>)>)
    requires WellFormed(rep.book)
    ensures r.Ok? <==> Record(rep.book, cards).Ok?
    ensures r.Ok? ==> Ok(r.value.0.book) == Record(rep.book, cards) && r.value.0.priceSeries == rep.priceSeries
    ensures r.Ok? ==> (r.value.1.Some? <==> ResultsReportDue(r.value.0.book))
    ensures r.Ok? && r.value.1.Some? ==> r.value.1.value == Estimate(r.value.0.book, elapsedMs)
    ensures r.Ok? && rep.book.done + 1 == rep.book.total ==> r.value.1 == Some(Progress(rep.book.total, rep.book.total, 0.0))
  {
    var book :- Record(rep.book, cards);
    var line := if ResultsReportDue(book) then Some(Estimate(book, elapsedMs)) else None;
    Ok((rep.(book := book), line))
  }

  /** AddPriceDevelopment: one more series, the provider's prices in tick
      order. */
  function AddPriceDevelopment(rep: SimulationResults, p: Provider): (r: SimulationResults)
    ensures r.book == rep.book && |r.priceSeries| == |rep.priceSeries| + 1
    ensures r.priceSeries[..|rep.priceSeries|] == rep.priceSeries
    ensures |r.priceSeries[|rep.priceSeries|]| == |ProviderPrices(p)|
    ensures forall i :: 0 <= i < |ProviderPrices(p)| ==> r.priceSeries[|rep.priceSeries|][i] == ProviderPrices(p)[i].price
  {
    var ps := ProviderPrices(p);
    rep.(priceSeries := rep.priceSeries + [seq(|ps|, i requires 0 <= i < |ps| => ps[i].price)])
  }

  // ---------------------------------------------------------------------
  // ScorecardReporter

  datatype ScorecardLog = ScorecardLog(book: Bookkeeping)

  function NewScorecardLog(total: int, botCount: int): (r: Result<ScorecardLog>)
    ensures r.Ok? <==> botCount >= 0
    ensures r.Ok? ==> Ok(r.value.book) == NewBookkeeping(total, botCount)
  {
    var book :- NewBookkeeping(total, botCount);
    Ok(ScorecardLog(book))
  }

  function AddToLog(log: ScorecardLog, cards: seq<Arena.ScoreCard>, elapsedMs: real): (r: Result<(ScorecardLog, Option<Progress>)>)
    requires WellFormed(log.book)
    ensures r.Ok? <==> Record(log.book, cards).Ok?
    ensures r.Ok? ==> Ok(r.value.0.book) == Record(log.book, cards)
    ensures r.Ok? ==> (r.value.1.Some? <==> ScorecardReportDue(r.value.0.book))
    ensures r.Ok? && r.value.1.Some? ==> r.value.1.value == Estimate(r.value.0.book, elapsedMs)
  {
    var book :- Record(log.book, cards);
    var line := if ScorecardReportDue(book) then Some(Estimate(book, elapsedMs)) else None;
    Ok((ScorecardLog(book), line))
  }

  /** Unlike the other reporter, this one can stay silent on the last round:
      with seven rounds the interval is two and round seven is not reported. */
  lemma FinalRoundMayGoUnreported()
    ensures var log := NewScorecardLog(7, 0).value.(book := NewScorecardLog(7, 0).value.book.(done := 6));
      WellFormed(log.book) && AddToLog(log, [], 0.0).Ok? && AddToLog(log, [], 0.0).value.1 == None
  {
    assert IntSqrt(7) == 2;
  }

  // ---------------------------------------------------------------------
  // A batch of rounds, recorded one after the other

  /** Bot i's scorecards, round by round. */
  function Column(rounds: seq<seq<Arena.ScoreCard>>, i: nat): (c: seq<Arena.ScoreCard>)
    requires forall k :: 0 <= k < |rounds| ==> i < |rounds[k]|
    ensures |c| == |rounds|
  {
    seq(|rounds|, k requires 0 <= k < |rounds| => rounds[k][i])
  }

  function RecordAll(b: Bookkeeping, rounds: seq<seq<Arena.ScoreCard>>): (r: Result<Bookkeeping>)
    requires WellFormed(b)
    ensures r.Ok? ==> WellFormed(r.value) && r.value.total == b.total
    decreases |rounds|
  {
    if |rounds| == 0 then Ok(b)
    else
      var before :- RecordAll(b, rounds[..|rounds| - 1]);
      Record(before, rounds[|rounds| - 1])
  }

  /** Recording complete rounds one after the other, as long as the count
      allows, succeeds and leaves column i holding bot i's scorecards in round
      order. */
  lemma {:induction false} RecordAllColumns(b: Bookkeeping, rounds: seq<seq<Arena.ScoreCard>>)
    requires WellFormed(b)
    requires forall k :: 0 <= k < |rounds| ==> |rounds[k]| == |b.columns|
    requires b.done + |rounds| <= b.total
    ensures RecordAll(b, rounds).Ok?
    ensures RecordAll(b, rounds).value.done == b.done + |rounds|
    ensures |RecordAll(b, rounds).value.columns| == |b.columns|
    ensures forall i :: 0 <= i < |b.columns| ==> RecordAll(b, rounds).value.columns[i] == b.columns[i] + Column(rounds, i)
    decreases |rounds|
  {
    if |rounds| > 0 {
      var n := |rounds| - 1;
      var prefix := rounds[..n];
      RecordAllColumns(b, prefix);
      var before := RecordAll(b, prefix).value;
      var after := Record(before, rounds[n]).value;
      forall i | 0 <= i < |b.columns|
        ensures after.columns[i] == b.columns[i] + Column(rounds, i)
      {
        assert Column(rounds, i) == Column(prefix, i) + [rounds[n][i]];
      }
    }
  }
}
