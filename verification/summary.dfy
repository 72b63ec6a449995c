/** The end-of-batch report (VolvasArena/ScoreCardSummarizer.cs): the winner
    of every round by a KPI, the distribution of winners, the overall winner,
    and the histograms of the winner's KPI and of the final prices. The KPI
    selector is the parameter `kpi`; the printed text is not modelled. */
module Summary {
  import opened Wrappers
  import opened Prices
  import opened Histograms
  import Arena
  import Reporters

  // ---------------------------------------------------------------------
  // The winner of one round

  /** FindIndex: the first position holding x, or -1. */
  function FindIndex(xs: seq<real>, x: real): (r: int)
    ensures -1 <= r < |xs|
    ensures r >= 0 ==> xs[r] == x && forall j :: 0 <= j < r ==> xs[j] != x
    ensures r == -1 ==> x !in xs
    decreases |xs|
  {
    if |xs| == 0 then -1
    else if xs[0] == x then 0
    else
      var r := FindIndex(xs[1..], x);
      assert forall j :: 0 < j < |xs| ==> xs[1..][j - 1] == xs[j];
      if r == -1 then -1 else r + 1
  }

  /** FindIndex(w => w == Max()): the first position of the largest score.
      It is never -1, and every earlier score is strictly smaller. */
  function FirstMax(scores: seq<real>): (r: int)
    requires |scores| > 0
    ensures 0 <= r < |scores|
    ensures forall j :: 0 <= j < |scores| ==> scores[j] <= scores[r]
    ensures forall j :: 0 <= j < r ==> scores[j] < scores[r]
  {
    FindIndex(scores, Max(scores))
  }

  /** The KPI of every bot in round i. */
  function RoundScores(columns: seq<seq<Arena.ScoreCard>>, kpi: Arena.ScoreCard -> real, i: nat): (r: Result<seq<real>>)
    ensures r.Ok? <==> forall b :: 0 <= b < |columns| ==> i < |columns[b]|
    ensures r.Ok? ==> |r.value| == |columns| && forall b :: 0 <= b < |columns| ==> r.value[b] == kpi(columns[b][i])
  {
    if exists b :: 0 <= b < |columns| && i >= |columns[b]| then Err("Index was out of range")
    else Ok(seq(|columns|, b requires 0 <= b < |columns| => kpi(columns[b][i])))
  }

  /** w is the bot with the highest KPI in round i, the first one on a tie. */
  ghost predicate RoundWinner(columns: seq<seq<Arena.ScoreCard>>, kpi: Arena.ScoreCard -> real, i: nat, w: int) {
    RoundScores(columns, kpi, i).Ok? && |columns| > 0 && w == FirstMax(RoundScores(columns, kpi, i).value)
  }

  /** The winners loop: one winner per round of bot 0's column. */
  function Winners(columns: seq<seq<Arena.ScoreCard>>, kpi: Arena.ScoreCard -> real, rounds: nat): (r: Result<seq<int>>)
    requires |columns| > 0
    ensures r.Ok? <==> forall b :: 0 <= b < |columns| ==> rounds <= |columns[b]|
    ensures r.Ok? ==> |r.value| == rounds
    ensures r.Ok? ==> forall i :: 0 <= i < rounds ==> RoundWinner(columns, kpi, i, r.value[i])
    decreases rounds
  {
    if rounds == 0 then Ok([])
    else
      var earlier :- Winners(columns, kpi, rounds - 1);
      var scores :- RoundScores(columns, kpi, rounds - 1);
      Ok(earlier + [FirstMax(scores)])
  }

  // ---------------------------------------------------------------------
  // The winner histogram

  /** Enumerable.Range(-1, n + 1): buckets [w, w + 1) for w = -1 .. n - 1. */
  function WinBuckets(n: nat): (bs: seq<Bucket>)
    ensures |bs| == n + 1
    ensures forall k :: 0 <= k <= n ==> bs[k] == Bucket(Finite((k - 1) as real), Finite(k as real))
  {
    seq(n + 1, k requires 0 <= k <= n => Bucket(Finite((k - 1) as real), Finite(k as real)))
  }

  function AsReals(ws: seq<int>): (r: seq<real>)
    ensures |r| == |ws| && forall i :: 0 <= i < |ws| ==> r[i] == ws[i] as real
  {
    seq(|ws|, i requires 0 <= i < |ws| => ws[i] as real)
  }

  lemma WinBucketsChain(n: nat)
    ensures Chain(WinBuckets(n))
    ensures WinBuckets(n)[0].low == Finite(-1.0) && WinBuckets(n)[n].high == Finite(n as real)
  {
    var bs := WinBuckets(n);
    forall k | 0 < k < |bs|
      ensures bs[k].low == bs[k - 1].high
    {
      assert (k - 1) as real == ((k - 1) + 0) as real;
    }
  }

  /** The win buckets are contiguous, so for winners that are bot indexes
      the histogram is built without error and every win lands in exactly
      one bucket; bucket k + 1, the range [k, k + 1), is bot k's. */
  lemma WinHistogram(n: nat, winners: seq<int>)
    requires forall i :: 0 <= i < |winners| ==> 0 <= winners[i] < n
    ensures Chain(WinBuckets(n))
    ensures FromBuckets(WinBuckets(n), AsReals(winners)).Ok?
    ensures forall k :: 1 <= k <= n ==> InBucket(WinBuckets(n)[k], (k - 1) as real)
    ensures forall i :: 0 <= i < |winners| ==> CountContaining(WinBuckets(n), AsReals(winners)[i]) == 1
  {
    var bs := WinBuckets(n);
    WinBucketsChain(n);
    var values := AsReals(winners);
    assert forall i :: 0 <= i < |values| ==> InSpan(bs, values[i]);
    ChainInsert(bs, values);
  }

  // ---------------------------------------------------------------------
  // Win counts and the overall winner

  /** GroupBy one more winner: bump its group, or open a group at the end. */
  function Bump(t: seq<(int, nat)>, w: int): (r: seq<(int, nat)>)
    ensures |r| == |t| || |r| == |t| + 1
    decreases |t|
  {
    if |t| == 0 then [(w, 1)]
    else if t[0].0 == w then [(w, t[0].1 + 1)] + t[1..]
    else [t[0]] + Bump(t[1..], w)
  }

  /** winners.GroupBy(w => w) with each group's size, in order of first
      appearance. */
  function Tally(ws: seq<int>): seq<(int, nat)>
    decreases |ws|
  {
    if |ws| == 0 then [] else Bump(Tally(ws[..|ws| - 1]), ws[|ws| - 1])
  }

  function Keys(t: seq<(int, nat)>): (r: seq<int>)
    ensures |r| == |t| && forall i :: 0 <= i < |t| ==> r[i] == t[i].0
  {
    seq(|t|, i requires 0 <= i < |t| => t[i].0)
  }

  function SumCounts(t: seq<(int, nat)>): nat
    decreases |t|
  {
    if |t| == 0 then 0 else t[0].1 + SumCounts(t[1..])
  }

  /** The distinct values in order of first appearance: an independent
      description of the group order. */
  function Distinct(ws: seq<int>): seq<int>
    decreases |ws|
  {
    if |ws| == 0 then []
    else
      var before := Distinct(ws[..|ws| - 1]);
      if ws[|ws| - 1] in ws[..|ws| - 1] then before else before + [ws[|ws| - 1]]
  }

  lemma {:induction false} BumpSum(t: seq<(int, nat)>, w: int)
    ensures SumCounts(Bump(t, w)) == SumCounts(t) + 1
    decreases |t|
  {
    if |t| > 0 && t[0].0 != w {
      BumpSum(t[1..], w);
    }
  }

  lemma {:induction false} BumpKeys(t: seq<(int, nat)>, w: int)
    ensures w in Keys(t) ==> Keys(Bump(t, w)) == Keys(t)
    ensures w !in Keys(t) ==> Keys(Bump(t, w)) == Keys(t) + [w]
    decreases |t|
  {
    if |t| > 0 {
      KeysCons(t);
      var r := Bump(t, w);
      if t[0].0 != w {
        BumpKeys(t[1..], w);
        assert r == [t[0]] + Bump(t[1..], w);
        KeysCons(r);
        assert r[1..] == Bump(t[1..], w);
      } else {
        assert r == [(w, t[0].1 + 1)] + t[1..];
        KeysCons(r);
        assert r[1..] == t[1..];
      }
    }
  }

  /** No two groups share a key. */
  predicate KeysDistinct(t: seq<(int, nat)>) {
    forall i, j :: 0 <= i < j < |t| ==> t[i].0 != t[j].0
  }

  /** Bumping w adds one to w's group, or appends a group of one. */
  ghost predicate BumpedFrom(t: seq<(int, nat)>, w: int, r: seq<(int, nat)>) {
    (forall i :: 0 <= i < |t| ==> i < |r| && r[i] == (t[i].0, t[i].1 + if t[i].0 == w then 1 else 0)) &&
    (w in Keys(t) ==> |r| == |t|) &&
    (w !in Keys(t) ==> |r| == |t| + 1 && r[|t|] == (w, 1))
  }

  lemma {:induction false} BumpCounts(t: seq<(int, nat)>, w: int)
    requires KeysDistinct(t)
    ensures forall i :: 0 <= i < |t| ==> Bump(t, w)[i] == (t[i].0, t[i].1 + if t[i].0 == w then 1 else 0)
    ensures w in Keys(t) ==> |Bump(t, w)| == |t|
    ensures w !in Keys(t) ==> |Bump(t, w)| == |t| + 1 && Bump(t, w)[|t|] == (w, 1)
    decreases |t|
  {
    if |t| > 0 {
      if t[0].0 == w {
        BumpFirst(t, w);
      } else {
        KeysDistinctTail(t);
        BumpCounts(t[1..], w);
        BumpLater(t, w);
      }
    }
    assert BumpedFrom(t, w, Bump(t, w));
  }

  lemma BumpFirst(t: seq<(int, nat)>, w: int)
    requires KeysDistinct(t) && |t| > 0 && t[0].0 == w
    ensures BumpedFrom(t, w, Bump(t, w))
  {
    var rest := t[1..];
    var r := Bump(t, w);
    assert Keys(t)[0] == w;
    assert r == [(w, t[0].1 + 1)] + rest;
    forall i | 0 < i < |t|
      ensures r[i] == (t[i].0, t[i].1 + if t[i].0 == w then 1 else 0)
    {
      assert t[i].0 != t[0].0;
      assert r[i] == rest[i - 1] == t[i];
    }
  }

  lemma BumpLater(t: seq<(int, nat)>, w: int)
    requires |t| > 0 && t[0].0 != w
    requires BumpedFrom(t[1..], w, Bump(t[1..], w))
    ensures BumpedFrom(t, w, Bump(t, w))
  {
    var rest := t[1..];
    var r := Bump(t, w);
    var b := Bump(rest, w);
    assert r == [t[0]] + b;
    assert w in Keys(t) <==> w in Keys(rest) by {
      KeysCons(t);
    }
    assert forall i :: 0 < i < |t| ==> i < |r| && r[i] == (t[i].0, t[i].1 + if t[i].0 == w then 1 else 0) by {
      forall i | 0 < i < |t|
        ensures i < |r| && r[i] == (t[i].0, t[i].1 + if t[i].0 == w then 1 else 0)
      {
        assert r[i] == b[i - 1] && t[i] == rest[i - 1];
      }
    }
    if w !in Keys(t) {
      assert r[|t|] == b[|rest|];
    }
  }

  lemma KeysCons(t: seq<(int, nat)>)
    requires |t| > 0
    ensures Keys(t) == [t[0].0] + Keys(t[1..])
  {
  }

  lemma KeysDistinctTail(t: seq<(int, nat)>)
    requires KeysDistinct(t) && |t| > 0
    ensures KeysDistinct(t[1..])
  {
    forall i, j | 0 <= i < j < |t| - 1
      ensures t[1..][i].0 != t[1..][j].0
    {
      assert t[1..][i] == t[i + 1] && t[1..][j] == t[j + 1];
    }
  }

  /** The groups come in order of first appearance, each with the number of
      times its bot won, and the group sizes add up to the number of rounds. */
  lemma {:induction false} TallyCounts(ws: seq<int>)
    ensures Keys(Tally(ws)) == Distinct(ws)
    ensures forall i :: 0 <= i < |Tally(ws)| ==> Tally(ws)[i].1 == multiset(ws)[Tally(ws)[i].0]
    ensures SumCounts(Tally(ws)) == |ws|
    ensures forall w :: w in ws <==> w in Distinct(ws)
    ensures KeysDistinct(Tally(ws))
    decreases |ws|
  {
    if |ws| > 0 {
      var init := ws[..|ws| - 1];
      var w := ws[|ws| - 1];
      assert ws == init + [w];
      TallyCounts(init);
      var t := Tally(init);
      BumpSum(t, w);
      BumpKeys(t, w);
      BumpCounts(t, w);
      TallyStepCounts(init, w, t);
    }
  }

  lemma TallyStepCounts(init: seq<int>, w: int, t: seq<(int, nat)>)
    requires Keys(t) == Distinct(init)
    requires forall i :: 0 <= i < |t| ==> t[i].1 == multiset(init)[t[i].0]
    requires forall x :: x in init <==> x in Distinct(init)
    requires forall i :: 0 <= i < |t| ==> Bump(t, w)[i] == (t[i].0, t[i].1 + if t[i].0 == w then 1 else 0)
    requires w in Keys(t) ==> |Bump(t, w)| == |t|
    requires w !in Keys(t) ==> |Bump(t, w)| == |t| + 1 && Bump(t, w)[|t|] == (w, 1)
    ensures forall i :: 0 <= i < |Bump(t, w)| ==> Bump(t, w)[i].1 == multiset(init + [w])[Bump(t, w)[i].0]
  {
    var r := Bump(t, w);
    forall i | 0 <= i < |r|
      ensures r[i].1 == multiset(init + [w])[r[i].0]
    {
      if i == |t| {
        assert w !in init;
      }
    }
  }

  /** The position of a value's first appearance. */
  function FirstIndex(ws: seq<int>, w: int): (r: nat)
    requires w in ws
    ensures r < |ws| && ws[r] == w && forall j :: 0 <= j < r ==> ws[j] != w
    decreases |ws|
  {
    if ws[0] == w then 0
    else
      assert forall j :: 0 < j < |ws| ==> ws[1..][j - 1] == ws[j];
      FirstIndex(ws[1..], w) + 1
  }

  /** Distinct lists values in increasing order of first appearance. */
  lemma {:induction false} DistinctInFirstAppearanceOrder(ws: seq<int>)
    ensures forall k :: 0 <= k < |Distinct(ws)| ==> Distinct(ws)[k] in ws
    ensures forall k, l :: 0 <= k < l < |Distinct(ws)| ==>
      FirstIndex(ws, Distinct(ws)[k]) < FirstIndex(ws, Distinct(ws)[l])
    decreases |ws|
  {
    if |ws| > 0 {
      var init := ws[..|ws| - 1];
      var w := ws[|ws| - 1];
      DistinctInFirstAppearanceOrder(init);
      var d := Distinct(init);
      forall k | 0 <= k < |d|
        ensures FirstIndex(ws, d[k]) == FirstIndex(init, d[k])
      {
        FirstIndexExtends(init, w, d[k]);
      }
      if w !in init {
        forall k | 0 <= k < |d|
          ensures FirstIndex(ws, d[k]) < FirstIndex(ws, w)
        {
          assert ws == init + [w];
        }
      }
    }
  }

  lemma FirstIndexExtends(init: seq<int>, w: int, x: int)
    requires x in init
    ensures FirstIndex(init + [w], x) == FirstIndex(init, x)
  {
    var a := FirstIndex(init + [w], x);
    var b := FirstIndex(init, x);
    assert (init + [w])[b] == x;
  }

  function Counts(t: seq<(int, nat)>): (r: seq<real>)
    ensures |r| == |t| && forall i :: 0 <= i < |t| ==> r[i] == t[i].1 as real
  {
    seq(|t|, i requires 0 <= i < |t| => t[i].1 as real)
  }

  /** winsPerBot.OrderByDescending(NumberOfWins).First(): OrderByDescending
      is stable, so this is the first group with the most wins. No winners
      means First() has nothing to return. */
  function OverallWinner(winners: seq<int>): (r: Result<int>)
    ensures r.Ok? <==> |winners| > 0
  {
    var t := Tally(winners);
    if |t| == 0 then Err("Sequence contains no elements")
    else Ok(t[FirstMax(Counts(t))].0)
  }

  /** The group of a bot that won at least once. */
  lemma GroupOf(ws: seq<int>, b: int) returns (j: nat)
    requires b in ws
    ensures j < |Tally(ws)| && j < |Distinct(ws)| && Tally(ws)[j].0 == b && Distinct(ws)[j] == b
    ensures Counts(Tally(ws))[j] == multiset(ws)[b] as real
  {
    TallyCounts(ws);
    var d := Distinct(ws);
    assert b in d;
    j :| 0 <= j < |d| && d[j] == b;
    assert Keys(Tally(ws))[j] == b;
  }

  /** The overall winner won at least as often as any bot, and any bot with
      as many wins won its first round no earlier. */
  lemma OverallWinnerHasMostWins(winners: seq<int>)
    requires |winners| > 0
    ensures var w := OverallWinner(winners).value;
      w in winners &&
      (forall b :: multiset(winners)[b] <= multiset(winners)[w]) &&
      (forall b :: b in winners && multiset(winners)[b] == multiset(winners)[w] ==>
        FirstIndex(winners, w) <= FirstIndex(winners, b))
  {
    var w := OverallWinner(winners).value;
    var k := WinnerGroup(winners);
    forall b
      ensures multiset(winners)[b] <= multiset(winners)[w]
    {
      if b in winners {
        WinsAtMost(winners, k, w, b);
      }
    }
    forall b | b in winners && multiset(winners)[b] == multiset(winners)[w]
      ensures FirstIndex(winners, w) <= FirstIndex(winners, b)
    {
      TiedNoEarlier(winners, k, w, b);
    }
  }

  /** The overall winner's group is the first group with the most wins. */
  lemma WinnerGroup(winners: seq<int>) returns (k: nat)
    requires |winners| > 0
    ensures k < |Tally(winners)| && k < |Distinct(winners)| && k == FirstMax(Counts(Tally(winners)))
    ensures Tally(winners)[k].0 == OverallWinner(winners).value == Distinct(winners)[k]
    ensures OverallWinner(winners).value in winners
    ensures Counts(Tally(winners))[k] == multiset(winners)[OverallWinner(winners).value] as real
  {
    var t := Tally(winners);
    TallyCounts(winners);
    k := FirstMax(Counts(t));
    assert Keys(t)[k] == t[k].0;
  }

  lemma WinsAtMost(winners: seq<int>, k: nat, w: int, b: int)
    requires b in winners && |winners| > 0
    requires k < |Tally(winners)| && k == FirstMax(Counts(Tally(winners)))
    requires Counts(Tally(winners))[k] == multiset(winners)[w] as real
    ensures multiset(winners)[b] <= multiset(winners)[w]
  {
    var j := GroupOf(winners, b);
  }

  lemma TiedNoEarlier(winners: seq<int>, k: nat, w: int, b: int)
    requires b in winners && w in winners
    requires k < |Tally(winners)| && k < |Distinct(winners)| && |winners| > 0
    requires k == FirstMax(Counts(Tally(winners))) && Distinct(winners)[k] == w
    requires Counts(Tally(winners))[k] == multiset(winners)[w] as real
    requires multiset(winners)[b] == multiset(winners)[w]
    ensures FirstIndex(winners, w) <= FirstIndex(winners, b)
  {
    var j := GroupOf(winners, b);
    assert k <= j;
    if k < j {
      DistinctInFirstAppearanceOrder(winners);
    }
  }

  // ---------------------------------------------------------------------
  // Final prices

  /** PriceSeries.Select(w => w.Last()): Last() rejects an empty series. */
  function FinalPrices(series: seq<seq<real>>): (r: Result<seq<real>>)
    ensures r.Ok? <==> forall i :: 0 <= i < |series| ==> |series[i]| > 0
    ensures r.Ok? ==> |r.value| == |series|
    ensures r.Ok? ==> forall i :: 0 <= i < |series| ==> r.value[i] == series[i][|series[i]| - 1]
  {
    if exists i :: 0 <= i < |series| && |series[i]| == 0 then Err("Sequence contains no elements")
    else Ok(seq(|series|, i requires 0 <= i < |series| => series[i][|series[i]| - 1]))
  }

  /** The final price recorded for a round is the provider's latest price. */
  lemma FinalPriceIsLatest(rep: Reporters.SimulationResults, p: Provider)
    requires WellNumbered(p) && ProviderLatest(p).Ok?
    ensures var series := Reporters.AddPriceDevelopment(rep, p).priceSeries;
      FinalPrices([series[|series| - 1]]) == Ok([ProviderLatest(p).value.price])
  {
    var ps := ProviderPrices(p);
    var series := Reporters.AddPriceDevelopment(rep, p).priceSeries;
    match p {
      case Simulated(sim) =>
        ConsecutiveLatestIsLast(sim);
      case Replayed(r) =>
        ReplayLatestTick(r);
    }
    var last := series[|series| - 1];
    assert |ps| > 0 && ps[|ps| - 1] == ProviderLatest(p).value;
    assert |last| == |ps| && last[|last| - 1] == ps[|ps| - 1].price;
    assert FinalPrices([last]).value == [ProviderLatest(p).value.price];
  }

  // ---------------------------------------------------------------------
  // The report

  datatype Report = Report(
    names: seq<string>,
    winners: seq<int>,
    winnerBars: seq<nat>,
    overallWinner: int,
    winnerKpis: Histogram,
    winnerKpiBars: seq<nat>,
    finalPrices: seq<real>,
    priceBars: seq<nat>)

  /** Each bot's name, taken from its first scorecard. */
  function Names(columns: seq<seq<Arena.ScoreCard>>): (r: seq<string>)
    requires forall b :: 0 <= b < |columns| ==> |columns[b]| > 0
    ensures |r| == |columns| && forall b :: 0 <= b < |columns| ==> r[b] == columns[b][0].name
  {
    seq(|columns|, b requires 0 <= b < |columns| => columns[b][0].name)
  }

  /** One bot's KPI in every round. */
  function Kpis(column: seq<Arena.ScoreCard>, kpi: Arena.ScoreCard -> real): (r: seq<real>)
    ensures |r| == |column| && forall i :: 0 <= i < |column| ==> r[i] == kpi(column[i])
  {
    seq(|column|, i requires 0 <= i < |column| => kpi(column[i]))
  }

  /** The inputs PrintReport gets through: some bot, bot 0 played a round
      and no bot played fewer rounds than bot 0, and there is at least one
      price series and none is empty. */
  predicate Summarizable(columns: seq<seq<Arena.ScoreCard>>, series: seq<seq<real>>) {
    |columns| > 0 &&
    (forall b :: 0 <= b < |columns| ==> 0 < |columns[0]| <= |columns[b]|) &&
    |series| > 0 &&
    (forall i :: 0 <= i < |series| ==> |series[i]| > 0)
  }

  /** PrintReport's numbers: bot 0's column fixes the number of rounds, every
      bot's first scorecard names it, the histograms are printed fifty stars
      high (thirty for the prices). It fails only on inputs that are not
      summarizable (the converse is SummarizeSucceeds). */
  function Summarize(columns: seq<seq<Arena.ScoreCard>>, series: seq<seq<real>>, kpi: Arena.ScoreCard -> real): (r: Result<Report>)
    ensures r.Ok? ==> Summarizable(columns, series)
    ensures r.Ok? ==> |columns| > 0 && |r.value.names| == |columns|
    ensures r.Ok? ==> forall b :: 0 <= b < |columns| ==> |columns[b]| > 0 && r.value.names[b] == columns[b][0].name
    ensures r.Ok? ==> Ok(r.value.winners) == Winners(columns, kpi, |columns[0]|)
    ensures r.Ok? ==> |columns[0]| > 0 && Ok(r.value.overallWinner) == OverallWinner(r.value.winners)
    ensures r.Ok? ==> 0 <= r.value.overallWinner < |columns|
    ensures r.Ok? ==> Ok(r.value.finalPrices) == FinalPrices(series)
  {
    if |columns| == 0 then Err("Index was outside the bounds of the array")
    else if exists b :: 0 <= b < |columns| && |columns[b]| == 0 then Err("Index was out of range")
    else
      var names := Names(columns);
      var winners :- Winners(columns, kpi, |columns[0]|);
      var winnerHistogram :- FromBuckets(WinBuckets(|columns|), AsReals(winners));
      var winnerBars :- Bars(winnerHistogram, None, Some(50));
      var overall :- OverallWinner(winners);
      OverallWinnerIsBot(columns, kpi, winners);
      var kpis := Kpis(columns[overall], kpi);
      var kpiHistogram :- EqualWidth(20, kpis);
      var kpiBars :- Bars(kpiHistogram, None, Some(50));
      var finals :- FinalPrices(series);
      var priceHistogram :- EqualWidth(20, finals);
      var priceBars :- Bars(priceHistogram, None, Some(30));
      Ok(Report(names, winners, winnerBars, overall, kpiHistogram, kpiBars, finals, priceBars))
  }

  /** Every summarizable input yields a report. */
  lemma SummarizeSucceeds(columns: seq<seq<Arena.ScoreCard>>, series: seq<seq<real>>, kpi: Arena.ScoreCard -> real)
    requires Summarizable(columns, series)
    ensures Summarize(columns, series, kpi).Ok?
  {
    WinnerPartSucceeds(columns, kpi);
    HistogramPartSucceeds(columns, series, kpi);
  }

  /** The KPI and final-price histograms and their bars exist for
      summarizable input. */
  lemma HistogramPartSucceeds(columns: seq<seq<Arena.ScoreCard>>, series: seq<seq<real>>, kpi: Arena.ScoreCard -> real)
    requires Summarizable(columns, series)
    requires Winners(columns, kpi, |columns[0]|).Ok?
    requires var winners := Winners(columns, kpi, |columns[0]|).value;
      OverallWinner(winners).Ok? && 0 <= OverallWinner(winners).value < |columns|
    ensures var kpis := Kpis(columns[OverallWinner(Winners(columns, kpi, |columns[0]|).value).value], kpi);
      EqualWidth(20, kpis).Ok? && Bars(EqualWidth(20, kpis).value, None, Some(50)).Ok?
    ensures FinalPrices(series).Ok?
    ensures EqualWidth(20, FinalPrices(series).value).Ok? &&
      Bars(EqualWidth(20, FinalPrices(series).value).value, None, Some(30)).Ok?
  {
    var winners := Winners(columns, kpi, |columns[0]|).value;
    var overall := OverallWinner(winners).value;
    EqualWidthBarsDrawn(20, Kpis(columns[overall], kpi), 50);
    EqualWidthBarsDrawn(20, FinalPrices(series).value, 30);
  }

  /** The winners, their histogram and bars, and the overall winner exist
      when bot 0 played a round and no bot played fewer. */
  lemma WinnerPartSucceeds(columns: seq<seq<Arena.ScoreCard>>, kpi: Arena.ScoreCard -> real)
    requires |columns| > 0 && forall b :: 0 <= b < |columns| ==> 0 < |columns[0]| <= |columns[b]|
    ensures Winners(columns, kpi, |columns[0]|).Ok?
    ensures var winners := Winners(columns, kpi, |columns[0]|).value;
      FromBuckets(WinBuckets(|columns|), AsReals(winners)).Ok? &&
      Bars(FromBuckets(WinBuckets(|columns|), AsReals(winners)).value, None, Some(50)).Ok? &&
      OverallWinner(winners).Ok? && 0 <= OverallWinner(winners).value < |columns|
  {
    var winners := Winners(columns, kpi, |columns[0]|).value;
    WinnersAreBots(columns, kpi, winners);
    WinBarsDrawn(|columns|, winners, 50);
    OverallWinnerIsBot(columns, kpi, winners);
  }

  /** Wins fill some bucket of the win histogram, so its bars can be drawn
      to any positive height. */
  lemma WinBarsDrawn(n: nat, winners: seq<int>, m: int)
    requires |winners| > 0 && m > 0 && forall i :: 0 <= i < |winners| ==> 0 <= winners[i] < n
    ensures FromBuckets(WinBuckets(n), AsReals(winners)).Ok?
    ensures Bars(FromBuckets(WinBuckets(n), AsReals(winners)).value, None, Some(m)).Ok?
  {
    WinHistogram(n, winners);
    FilledBucket(FromBuckets(WinBuckets(n), AsReals(winners)).value.entries);
  }

  /** Every round winner is a bot index. */
  lemma WinnersAreBots(columns: seq<seq<Arena.ScoreCard>>, kpi: Arena.ScoreCard -> real, winners: seq<int>)
    requires |columns| > 0 && Ok(winners) == Winners(columns, kpi, |columns[0]|)
    ensures forall i :: 0 <= i < |winners| ==> 0 <= winners[i] < |columns|
  {
  }

  /** The overall winner is one of the bots. */
  lemma OverallWinnerIsBot(columns: seq<seq<Arena.ScoreCard>>, kpi: Arena.ScoreCard -> real, winners: seq<int>)
    requires |columns| > 0 && Ok(winners) == Winners(columns, kpi, |columns[0]|) && |winners| > 0
    ensures 0 <= OverallWinner(winners).value < |columns|
  {
    WinnersAreBots(columns, kpi, winners);
    var k := WinnerGroup(winners);
  }
}
