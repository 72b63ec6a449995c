/** The deterministic trading rules of VolvasArena/BuyAndSellStrategy.cs. A
    strategy is named by its rule and its price factor; the `CancelOld…`
    variants first cancel all of the trader's outstanding orders of their side
    and then apply the `LeaveOld…` rule as if nothing were outstanding. */
module Strategy {
  import opened Assets
  import opened Orders

  // ---------------------------------------------------------------------
  // Arithmetic of the source

  /** C#'s integer division by a positive divisor, which truncates toward
      zero: a non-negative dividend rounds down, a negative one rounds up. */
  function TruncDiv(a: int, b: int): (q: int)
    requires b > 0
    ensures a >= 0 ==> 0 <= q && q * b <= a < q * b + b
    ensures a < 0 ==> q <= 0 && q * b - b < a <= q * b
  {
    assert a == (a / b) * b + a % b && -a == ((-a) / b) * b + (-a) % b;
    if a >= 0 then a / b else -((-a) / b)
  }

  /** Truncation is symmetric about zero, unlike Dafny's Euclidean division:
      negating the dividend negates the quotient. */
  lemma TruncDivOdd(a: int, b: int)
    requires b > 0
    ensures TruncDiv(-a, b) == -TruncDiv(a, b)
  {
  }

  /** The bounds of TruncDiv determine it: any q bracketing a the same way is
      the quotient. */
  lemma TruncDivUnique(a: int, b: int, q: int)
    requires b > 0
    requires a >= 0 ==> 0 <= q && q * b <= a < q * b + b
    requires a < 0 ==> q <= 0 && q * b - b < a <= q * b
    ensures TruncDiv(a, b) == q
  {
    var t := TruncDiv(a, b);
    assert (t - q) * b == t * b - q * b && (q - t) * b == q * b - t * b;
    LessThanOne(t - q, b);
    LessThanOne(q - t, b);
  }

  lemma LessThanOne(d: int, b: int)
    requires b > 0 && d * b < b
    ensures d < 1
  {
    if d >= 1 {
      MulAtLeast(d, b);
    }
  }

  lemma MulAtLeast(d: int, b: int)
    requires d >= 1 && b > 0
    ensures d * b >= b
  {
    assert d * b == (d - 1) * b + b;
  }

  /** (int)Math.Floor(money / threshold). A zero threshold (a division by zero
      in floating point) is taken to afford nothing. */
  function MaxAffordable(money: real, threshold: real): (n: int)
    ensures threshold > 0.0 && money >= 0.0 ==> n >= 0 && n as real * threshold <= money < (n + 1) as real * threshold
  {
    if threshold == 0.0 then 0
    else
      var n := (money / threshold).Floor;
      if threshold > 0.0 then FloorTimes(money, threshold); n else n
  }

  lemma FloorTimes(money: real, threshold: real)
    requires threshold > 0.0
    ensures var n := (money / threshold).Floor;
      n as real * threshold <= money < (n + 1) as real * threshold
  {
    var q := money / threshold;
    var n := q.Floor;
    assert n as real <= q < n as real + 1.0;
    assert q * threshold == money;
    MulMonotone(n as real, q, threshold);
    var up := (n + 1) as real;
    assert up == n as real + 1.0;
    MulStrict(q, up, threshold);
    assert q * threshold < up * threshold;
    assert money < up * threshold;
  }

  lemma MulMonotone(a: real, b: real, t: real)
    requires a <= b && t >= 0.0
    ensures a * t <= b * t
  {
    assert b * t - a * t == (b - a) * t;
  }

  lemma MulStrict(a: real, b: real, t: real)
    requires a < b && t > 0.0
    ensures a * t < b * t
  {
    assert b * t - a * t == (b - a) * t;
  }

  lemma WeightedShare(c: nat, m: nat)
    requires c <= 10
    ensures 0 <= c * m / 10 <= m
  {
    assert c * m <= 10 * m;
  }

  // ---------------------------------------------------------------------
  // Price-history counters (history is newest first)

  /** The dip counter: how many leading steps i ≥ 1 have
      prices[i] ≥ prices[i-1], i.e. how many ticks in a row the price has
      fallen (or held) into the present. */
  function DipCount(prices: seq<AssetPrice>): (c: nat)
    ensures |prices| > 0 ==> c <= |prices| - 1
    ensures |prices| == 0 ==> c == 0
    ensures forall i :: 1 <= i <= c ==> prices[i].price >= prices[i - 1].price
    ensures 0 < c + 1 < |prices| ==> prices[c + 1].price < prices[c].price
    decreases |prices|
  {
    if |prices| < 2 || prices[1].price < prices[0].price then 0
    else 1 + DipCount(prices[1..])
  }

  /** The peak counter: how many leading steps i ≥ 1 have
      prices[i] ≤ prices[i-1], i.e. how many ticks in a row the price has
      risen (or held) into the present. */
  function PeakCount(prices: seq<AssetPrice>): (c: nat)
    ensures |prices| > 0 ==> c <= |prices| - 1
    ensures |prices| == 0 ==> c == 0
    ensures forall i :: 1 <= i <= c ==> prices[i].price <= prices[i - 1].price
    ensures 0 < c + 1 < |prices| ==> prices[c + 1].price > prices[c].price
    decreases |prices|
  {
    if |prices| < 2 || prices[1].price > prices[0].price then 0
    else 1 + PeakCount(prices[1..])
  }

  // ---------------------------------------------------------------------
  // Asset selection

  function Bought(a: Asset): real {
    a.boughtAt.price
  }

  /** r keeps, in order, exactly the positions of s whose asset was bought
      below the threshold. */
  ghost predicate SelectsBelow(r: seq<Asset>, s: seq<Asset>, threshold: real, idx: seq<int>) {
    Embedding(r, s, idx) &&
    forall k :: 0 <= k < |s| ==> (k in idx <==> Bought(s[k]) < threshold)
  }

  /** Where(bought < threshold), in list order. */
  function BoughtBelow(s: seq<Asset>, threshold: real): (r: seq<Asset>)
    ensures |r| <= |s|
    ensures forall a :: a in r <==> a in s && Bought(a) < threshold
    ensures multiset(r) <= multiset(s)
    decreases |s|
  {
    if |s| == 0 then []
    else
      var rest := BoughtBelow(s[..|s| - 1], threshold);
      assert s == s[..|s| - 1] + [s[|s| - 1]];
      if Bought(s[|s| - 1]) < threshold then rest + [s[|s| - 1]] else rest
  }

  /** The filter keeps list order and multiplicity: its result is the
      subsequence of s at exactly the positions bought below the threshold. */
  lemma {:induction false} BoughtBelowSelects(s: seq<Asset>, threshold: real)
    ensures exists idx :: SelectsBelow(BoughtBelow(s, threshold), s, threshold, idx)
    decreases |s|
  {
    if |s| == 0 {
      assert SelectsBelow(BoughtBelow(s, threshold), s, threshold, []);
    } else {
      var init := s[..|s| - 1];
      BoughtBelowSelects(init, threshold);
      var idx :| SelectsBelow(BoughtBelow(init, threshold), init, threshold, idx);
      var rest := BoughtBelow(init, threshold);
      if Bought(s[|s| - 1]) < threshold {
        assert BoughtBelow(s, threshold) == rest + [s[|s| - 1]];
        BelowTaken(s, init, threshold, rest, idx);
        assert SelectsBelow(BoughtBelow(s, threshold), s, threshold, idx + [|s| - 1]);
      } else {
        assert BoughtBelow(s, threshold) == rest;
        BelowSkipped(s, init, threshold, rest, idx);
        assert SelectsBelow(BoughtBelow(s, threshold), s, threshold, idx);
      }
    }
  }

  lemma BelowTaken(s: seq<Asset>, init: seq<Asset>, threshold: real, rest: seq<Asset>, idx: seq<int>)
    requires |s| > 0 && init == s[..|s| - 1] && Bought(s[|s| - 1]) < threshold
    requires SelectsBelow(rest, init, threshold, idx)
    ensures SelectsBelow(rest + [s[|s| - 1]], s, threshold, idx + [|s| - 1])
  {
    var n := |init|;
    var idx' := idx + [n];
    var r := rest + [s[n]];
    assert Embedding(r, s, idx') by {
      forall i | 0 <= i < |idx'|
        ensures 0 <= idx'[i] < |s| && r[i] == s[idx'[i]]
      {
        if i < |idx| {
          assert idx'[i] == idx[i] && r[i] == rest[i] && init[idx[i]] == s[idx[i]];
        }
      }
    }
    forall k | 0 <= k < |s|
      ensures k in idx' <==> Bought(s[k]) < threshold
    {
      if k < n {
        assert init[k] == s[k];
        assert k in idx' <==> k in idx;
      } else {
        assert idx'[|idx|] == n;
      }
    }
  }

  lemma BelowSkipped(s: seq<Asset>, init: seq<Asset>, threshold: real, rest: seq<Asset>, idx: seq<int>)
    requires |s| > 0 && init == s[..|s| - 1] && Bought(s[|s| - 1]) >= threshold
    requires SelectsBelow(rest, init, threshold, idx)
    ensures SelectsBelow(rest, s, threshold, idx)
  {
    forall i | 0 <= i < |idx|
      ensures 0 <= idx[i] < |s| && rest[i] == s[idx[i]]
    {
      assert init[idx[i]] == s[idx[i]];
    }
    forall k | 0 <= k < |s| - 1
      ensures k in idx <==> Bought(s[k]) < threshold
    {
      assert init[k] == s[k];
    }
  }

  ghost predicate SortedByBought(s: seq<Asset>) {
    forall i, j :: 0 <= i < j < |s| ==> Bought(s[i]) <= Bought(s[j])
  }

  /** Inserts `a` after every element whose purchase price is not larger. */
  function Insert(a: Asset, s: seq<Asset>): (r: seq<Asset>)
    requires SortedByBought(s)
    ensures |r| == |s| + 1
    ensures SortedByBought(r) && multiset(r) == multiset(s) + multiset{a}
    decreases |s|
  {
    if |s| == 0 then [a]
    else if Bought(a) < Bought(s[0]) then [a] + s
    else
      var rest := Insert(a, s[1..]);
      InsertHead(a, s, rest);
      [s[0]] + rest
  }

  lemma InsertHead(a: Asset, s: seq<Asset>, rest: seq<Asset>)
    requires |s| > 0 && SortedByBought(s) && Bought(a) >= Bought(s[0])
    requires SortedByBought(rest) && multiset(rest) == multiset(s[1..]) + multiset{a}
    ensures SortedByBought([s[0]] + rest) && multiset([s[0]] + rest) == multiset(s) + multiset{a}
  {
    assert s == [s[0]] + s[1..];
    forall j | 0 <= j < |rest|
      ensures Bought(s[0]) <= Bought(rest[j])
    {
      assert rest[j] in multiset(rest);
      if rest[j] != a {
        assert rest[j] in multiset(s[1..]);
        var k :| 0 <= k < |s[1..]| && s[1..][k] == rest[j];
        assert s[k + 1] == rest[j];
      }
    }
    var r := [s[0]] + rest;
    forall i, j | 0 <= i < j < |r|
      ensures Bought(r[i]) <= Bought(r[j])
    {
      if i > 0 {
        assert r[i] == rest[i - 1] && r[j] == rest[j - 1];
      } else {
        assert r[j] == rest[j - 1];
      }
    }
  }

  /** OrderBy(bought price): a stable insertion sort. */
  function SortByBought(s: seq<Asset>): (r: seq<Asset>)
    ensures |r| == |s|
    ensures SortedByBought(r) && multiset(r) == multiset(s)
    decreases |s|
  {
    if |s| == 0 then []
    else
      assert s == s[..|s| - 1] + [s[|s| - 1]];
      Insert(s[|s| - 1], SortByBought(s[..|s| - 1]))
  }

  /** The elements with purchase price k, in order. */
  function WithBought(s: seq<Asset>, k: real): seq<Asset>
    decreases |s|
  {
    if |s| == 0 then [] else Hit(s[0], k) + WithBought(s[1..], k)
  }

  lemma ConcatAssoc<T>(a: seq<T>, b: seq<T>, c: seq<T>)
    ensures a + (b + c) == (a + b) + c
  {
  }

  /** `[x]` when x was bought at k, otherwise nothing. */
  function Hit(x: Asset, k: real): seq<Asset> {
    if Bought(x) == k then [x] else []
  }

  lemma {:induction false} WithBoughtSnoc(s: seq<Asset>, x: Asset, k: real)
    ensures WithBought(s + [x], k) == WithBought(s, k) + Hit(x, k)
    decreases |s|
  {
    var t := s + [x];
    if |s| == 0 {
      assert t == [x] && t[1..] == [];
      assert WithBought(t, k) == Hit(x, k) + WithBought([], k);
    } else {
      assert t[0] == s[0] && t[1..] == s[1..] + [x];
      calc {
        WithBought(t, k);
        Hit(s[0], k) + WithBought(s[1..] + [x], k);
        { WithBoughtSnoc(s[1..], x, k); }
        Hit(s[0], k) + (WithBought(s[1..], k) + Hit(x, k));
        { ConcatAssoc(Hit(s[0], k), WithBought(s[1..], k), Hit(x, k)); }
        (Hit(s[0], k) + WithBought(s[1..], k)) + Hit(x, k);
      }
    }
  }

  lemma {:induction false} WithBoughtAllAbove(s: seq<Asset>, k: real)
    requires forall i :: 0 <= i < |s| ==> Bought(s[i]) > k
    ensures WithBought(s, k) == []
    decreases |s|
  {
    if |s| > 0 {
      WithBoughtAllAbove(s[1..], k);
      assert Hit(s[0], k) == [];
    }
  }

  lemma {:induction false} InsertStable(a: Asset, s: seq<Asset>, k: real)
    requires SortedByBought(s)
    ensures WithBought(Insert(a, s), k) == WithBought(s, k) + Hit(a, k)
    decreases |s|
  {
    if |s| == 0 {
      var r := Insert(a, s);
      assert r == [a] && r[1..] == [];
      assert WithBought(r, k) == Hit(a, k) + WithBought([], k);
    } else if Bought(a) < Bought(s[0]) {
      InsertInFront(a, s, k);
    } else {
      InsertStable(a, s[1..], k);
      InsertBehind(a, s, k);
    }
  }

  lemma {:induction false} InsertInFront(a: Asset, s: seq<Asset>, k: real)
    requires SortedByBought(s) && |s| > 0 && Bought(a) < Bought(s[0])
    ensures WithBought(Insert(a, s), k) == WithBought(s, k) + Hit(a, k)
  {
    var r := Insert(a, s);
    assert r == [a] + s && r[0] == a && r[1..] == s;
    assert WithBought(r, k) == Hit(a, k) + WithBought(s, k);
    if Bought(a) == k {
      forall i | 0 <= i < |s|
        ensures Bought(s[i]) > k
      {
        assert Bought(s[0]) <= Bought(s[i]);
      }
      WithBoughtAllAbove(s, k);
    } else {
      assert Hit(a, k) == [];
    }
  }

  lemma {:induction false} InsertBehind(a: Asset, s: seq<Asset>, k: real)
    requires SortedByBought(s) && |s| > 0 && Bought(a) >= Bought(s[0])
    requires WithBought(Insert(a, s[1..]), k) == WithBought(s[1..], k) + Hit(a, k)
    ensures WithBought(Insert(a, s), k) == WithBought(s, k) + Hit(a, k)
  {
    var rest := Insert(a, s[1..]);
    var r := Insert(a, s);
    assert r == [s[0]] + rest && r[0] == s[0] && r[1..] == rest;
    calc {
      WithBought(r, k);
      Hit(s[0], k) + WithBought(rest, k);
      Hit(s[0], k) + (WithBought(s[1..], k) + Hit(a, k));
      { ConcatAssoc(Hit(s[0], k), WithBought(s[1..], k), Hit(a, k)); }
      (Hit(s[0], k) + WithBought(s[1..], k)) + Hit(a, k);
    }
  }

  /** The sort is stable: assets with equal purchase price keep their
      relative order. */
  lemma {:induction false} SortStable(s: seq<Asset>, k: real)
    ensures WithBought(SortByBought(s), k) == WithBought(s, k)
    decreases |s|
  {
    if |s| > 0 {
      var init := s[..|s| - 1];
      var x := s[|s| - 1];
      assert s == init + [x];
      calc {
        WithBought(SortByBought(s), k);
        WithBought(Insert(x, SortByBought(init)), k);
        { InsertStable(x, SortByBought(init), k); }
        WithBought(SortByBought(init), k) + Hit(x, k);
        { SortStable(init, k); }
        WithBought(init, k) + Hit(x, k);
        { WithBoughtSnoc(init, x, k); }
        WithBought(s, k);
      }
    }
  }

  /** Take(n): the first n elements, or all of them, or none for n ≤ 0. */
  function Take(s: seq<Asset>, n: int): (r: seq<Asset>)
    ensures r <= s
    ensures |r| == if n <= 0 then 0 else if n < |s| then n else |s|
  {
    if n <= 0 then [] else if n < |s| then s[..n] else s
  }

  /** Taking from a list sorted by purchase price takes the cheapest: no asset
      left out was bought for less than one taken. */
  lemma TakeSortedIsCheapest(s: seq<Asset>, n: int)
    requires SortedByBought(s)
    ensures var r := Take(s, n);
      SortedByBought(r) &&
      forall i, j :: 0 <= i < |r| <= j < |s| ==> Bought(r[i]) <= Bought(s[j])
  {
  }

  // ---------------------------------------------------------------------
  // Buy rules

  datatype BuyRule =
    | AsManyAsYouCanAfford(factor: real)
    | HalfAsManyAsYouCanAfford(factor: real)
    | TheDip(factor: real)

  /** `cancelOld` selects the CancelOld… variant of the rule. */
  datatype BuyStrategy = BuyStrategy(cancelOld: bool, rule: BuyRule)

  /** A buy instruction: how many units at what limit. */
  datatype BuyOffer = BuyOffer(amount: int, price: real)

  /** The reply of every LeaveOld… buy rule while a buy order is outstanding. */
  const BuySentinel := BuyOffer(0, -1.0)

  /** LeaveOldOrBuyAsManyAsYouCanAffordAtX. */
  function AsManyAsYouCanAffordAtX(factor: real, money: real, lastPrice: real, outstandingBuys: seq<Order>): (r: seq<BuyOffer>)
    ensures |outstandingBuys| > 0 ==> r == [BuySentinel]
    ensures |outstandingBuys| == 0 ==>
      |r| == 1 && r[0].price == lastPrice * factor &&
      r[0].amount == MaxAffordable(money, lastPrice * factor)
    ensures |outstandingBuys| == 0 && lastPrice * factor > 0.0 && money >= 0.0 ==>
      r[0].amount >= 0 && r[0].amount as real * r[0].price <= money
  {
    if |outstandingBuys| > 0 then [BuySentinel]
    else
      var threshold := lastPrice * factor;
      [BuyOffer(MaxAffordable(money, threshold), threshold)]
  }

  /** LeaveOldOrBuyHalfAsManyAsYouCanAffordAtX. */
  function HalfAsManyAsYouCanAffordAtX(factor: real, money: real, lastPrice: real, outstandingBuys: seq<Order>): (r: seq<BuyOffer>)
    ensures |outstandingBuys| > 0 ==> r == [BuySentinel]
    ensures |outstandingBuys| == 0 ==>
      |r| == 1 && r[0].price == lastPrice * factor &&
      r[0].amount == TruncDiv(AsManyAsYouCanAffordAtX(factor, money, lastPrice, outstandingBuys)[0].amount, 2)
    ensures |outstandingBuys| == 0 && lastPrice * factor > 0.0 && money >= 0.0 ==>
      0 <= 2 * r[0].amount <= AsManyAsYouCanAffordAtX(factor, money, lastPrice, outstandingBuys)[0].amount
  {
    if |outstandingBuys| > 0 then [BuySentinel]
    else
      var threshold := lastPrice * factor;
      [BuyOffer(TruncDiv(MaxAffordable(money, threshold), 2), threshold)]
  }

  /** LeaveOldOrBuyTheDipAtX: buys count/10 of what it can afford, where count
      is the number of falling ticks leading into the present. */
  function TheDipAtX(factor: real, money: real, lastPrice: real, history: seq<AssetPrice>, outstandingBuys: seq<Order>): (r: seq<BuyOffer>)
    ensures |outstandingBuys| > 0 ==> r == [BuySentinel]
    ensures |outstandingBuys| == 0 ==>
      |r| == 1 && r[0].price == lastPrice * factor &&
      r[0].amount == TruncDiv(DipCount(history) * MaxAffordable(money, lastPrice * factor), 10)
  {
    if |outstandingBuys| > 0 then [BuySentinel]
    else
      var count := DipCount(history);
      var threshold := lastPrice * factor;
      var maxAffordable := MaxAffordable(money, threshold);
      [BuyOffer(TruncDiv(count * maxAffordable, 10), threshold)]
  }

  /** With at most eleven prices of history (the marketplace hands out ten), the
      dip rule never asks for more than it can afford. */
  lemma {:induction false} DipNeverExceedsAffordable(factor: real, money: real, lastPrice: real, history: seq<AssetPrice>)
    requires |history| <= 11 && lastPrice * factor > 0.0 && money >= 0.0
    ensures CoveredBy(TheDipAtX(factor, money, lastPrice, history, [])[0], money, MaxAffordable(money, lastPrice * factor))
  {
    var t := lastPrice * factor;
    ShareAffordable(DipCount(history), MaxAffordable(money, t), t, money);
  }

  /** A share of at most ten tenths of an affordable amount is affordable. */
  lemma ShareAffordable(c: nat, m: int, t: real, money: real)
    requires c <= 10 && t > 0.0 && m >= 0 && m as real * t <= money
    ensures 0 <= TruncDiv(c * m, 10) <= m && TruncDiv(c * m, 10) as real * t <= money
  {
    WeightedShare(c, m);
    MulMonotone(TruncDiv(c * m, 10) as real, m as real, t);
  }

  /** The buy instructions of a rule for a trader with the given money and
      outstanding buy orders: the sentinel while a buy is outstanding,
      otherwise one offer at last × factor (what it costs is
      `BuyRuleAffordable`). */
  function ApplyBuyRule(rule: BuyRule, money: real, lastPrice: real, history: seq<AssetPrice>, outstandingBuys: seq<Order>): (r: seq<BuyOffer>)
    ensures |outstandingBuys| > 0 ==> r == [BuySentinel]
    ensures |outstandingBuys| == 0 ==> |r| == 1 && r[0].price == lastPrice * rule.factor
    ensures |outstandingBuys| == 0 && rule.AsManyAsYouCanAfford? ==> r[0].amount == MaxAffordable(money, lastPrice * rule.factor)
  {
    match rule
    case AsManyAsYouCanAfford(f) => AsManyAsYouCanAffordAtX(f, money, lastPrice, outstandingBuys)
    case HalfAsManyAsYouCanAfford(f) => HalfAsManyAsYouCanAffordAtX(f, money, lastPrice, outstandingBuys)
    case TheDip(f) => TheDipAtX(f, money, lastPrice, history, outstandingBuys)
  }

  /** Every buy rule asks for no more than the money covers at a positive
      limit: between zero and the affordable amount, and at most the money in
      total. The dip rule needs the history the marketplace hands out, at
      most eleven prices. */
  lemma BuyRuleAffordable(rule: BuyRule, money: real, lastPrice: real, history: seq<AssetPrice>)
    requires lastPrice * rule.factor > 0.0 && money >= 0.0
    requires rule.TheDip? ==> |history| <= 11
    ensures CoveredBy(ApplyBuyRule(rule, money, lastPrice, history, [])[0], money, MaxAffordable(money, lastPrice * rule.factor))
  {
    if rule.HalfAsManyAsYouCanAfford? {
      HalfRuleCovered(rule, money, lastPrice, history);
    } else if rule.TheDip? {
      DipRuleCovered(rule, money, lastPrice, history);
    } else {
      AsManyRuleCovered(rule, money, lastPrice, history);
    }
  }

  lemma AsManyRuleCovered(rule: BuyRule, money: real, lastPrice: real, history: seq<AssetPrice>)
    requires lastPrice * rule.factor > 0.0 && money >= 0.0 && rule.AsManyAsYouCanAfford?
    ensures CoveredBy(ApplyBuyRule(rule, money, lastPrice, history, [])[0], money, MaxAffordable(money, lastPrice * rule.factor))
  {
    AsManyCovered(rule.factor, money, lastPrice);
    assert ApplyBuyRule(rule, money, lastPrice, history, []) == AsManyAsYouCanAffordAtX(rule.factor, money, lastPrice, []);
  }

  lemma HalfRuleCovered(rule: BuyRule, money: real, lastPrice: real, history: seq<AssetPrice>)
    requires lastPrice * rule.factor > 0.0 && money >= 0.0 && rule.HalfAsManyAsYouCanAfford?
    ensures CoveredBy(ApplyBuyRule(rule, money, lastPrice, history, [])[0], money, MaxAffordable(money, lastPrice * rule.factor))
  {
    HalfCovered(rule.factor, money, lastPrice);
    assert ApplyBuyRule(rule, money, lastPrice, history, []) == HalfAsManyAsYouCanAffordAtX(rule.factor, money, lastPrice, []);
  }

  lemma DipRuleCovered(rule: BuyRule, money: real, lastPrice: real, history: seq<AssetPrice>)
    requires lastPrice * rule.factor > 0.0 && money >= 0.0 && rule.TheDip? && |history| <= 11
    ensures CoveredBy(ApplyBuyRule(rule, money, lastPrice, history, [])[0], money, MaxAffordable(money, lastPrice * rule.factor))
  {
    DipNeverExceedsAffordable(rule.factor, money, lastPrice, history);
    assert ApplyBuyRule(rule, money, lastPrice, history, []) == TheDipAtX(rule.factor, money, lastPrice, history, []);
  }

  /** The offer asks for between zero and `most` units and the money covers
      it. */
  predicate CoveredBy(o: BuyOffer, money: real, most: int) {
    0 <= o.amount <= most && o.amount as real * o.price <= money
  }

  lemma AsManyCovered(f: real, money: real, lastPrice: real)
    requires lastPrice * f > 0.0 && money >= 0.0
    ensures CoveredBy(AsManyAsYouCanAffordAtX(f, money, lastPrice, [])[0], money, MaxAffordable(money, lastPrice * f))
  {
  }

  lemma HalfCovered(f: real, money: real, lastPrice: real)
    requires lastPrice * f > 0.0 && money >= 0.0
    ensures CoveredBy(HalfAsManyAsYouCanAffordAtX(f, money, lastPrice, [])[0], money, MaxAffordable(money, lastPrice * f))
  {
    var full := AsManyAsYouCanAffordAtX(f, money, lastPrice, [])[0].amount;
    var half := HalfAsManyAsYouCanAffordAtX(f, money, lastPrice, [])[0].amount;
    MulMonotone(half as real, full as real, lastPrice * f);
  }

  // The named buy strategies

  function LeaveOldOrBuyAsManyAsYouCanAffordAtLastPrice(): BuyStrategy { BuyStrategy(false, AsManyAsYouCanAfford(1.0)) }
  /** Delegates to the full-amount rule, as the source does. */
  function LeaveOldOrBuyHalfAsManyAsYouCanAffordAtLastPrice(): BuyStrategy { BuyStrategy(false, AsManyAsYouCanAfford(1.0)) }
  function LeaveOldOrBuyAsManyAsYouCanAffordAtTwoPercentLess(): BuyStrategy { BuyStrategy(false, AsManyAsYouCanAfford(0.98)) }
  function LeaveOldOrBuyHalfAsManyAsYouCanAffordAtTwoPercentLess(): BuyStrategy { BuyStrategy(false, HalfAsManyAsYouCanAfford(0.98)) }
  function LeaveOldOrBuyTheDipAt99(): BuyStrategy { BuyStrategy(false, TheDip(0.99)) }
  function LeaveOldOrBuyTheDipAtLatest(): BuyStrategy { BuyStrategy(false, TheDip(1.0)) }
  function LeaveOldOrBuyTheDipAt101(): BuyStrategy { BuyStrategy(false, TheDip(1.01)) }
  function CancelOldAndBuyAsManyAsYouCanAffordAtLastPrice(): BuyStrategy { BuyStrategy(true, AsManyAsYouCanAfford(1.0)) }
  function CancelOldAndBuyHalfAsManyAsYouCanAffordAtLastPrice(): BuyStrategy { BuyStrategy(true, AsManyAsYouCanAfford(1.0)) }
  function CancelOldAndBuyAsManyAsYouCanAffordAtTwoPercentLess(): BuyStrategy { BuyStrategy(true, AsManyAsYouCanAfford(0.98)) }
  function CancelOldAndBuyHalfAsManyAsYouCanAffordAtTwoPercentLess(): BuyStrategy { BuyStrategy(true, HalfAsManyAsYouCanAfford(0.98)) }
  function CancelOldAndBuyTheDipAt99(): BuyStrategy { BuyStrategy(true, TheDip(0.99)) }
  function CancelOldAndBuyTheDipAtLatest(): BuyStrategy { BuyStrategy(true, TheDip(1.0)) }
  function CancelOldAndBuyTheDipAt101(): BuyStrategy { BuyStrategy(true, TheDip(1.01)) }

  /** The "half as many at last price" strategies buy exactly what the
      full-amount ones buy. */
  lemma HalfAtLastPriceBuysFullAmount(money: real, lastPrice: real, history: seq<AssetPrice>, outstandingBuys: seq<Order>)
    ensures ApplyBuyRule(LeaveOldOrBuyHalfAsManyAsYouCanAffordAtLastPrice().rule, money, lastPrice, history, outstandingBuys)
         == AsManyAsYouCanAffordAtX(1.0, money, lastPrice, outstandingBuys)
  {
  }

  // ---------------------------------------------------------------------
  // Sell rules

  datatype SellRule =
    | HalfProfitable(factor: real)
    | AllProfitable(factor: real)
    | ProfitablePeak(factor: real)

  datatype SellStrategy = SellStrategy(cancelOld: bool, rule: SellRule)

  /** A sell instruction: a limit price and the assets to consign. */
  datatype SellOffer = SellOffer(price: real, assets: seq<Asset>)

  /** The reply of every LeaveOld… sell rule while a sell order is outstanding. */
  const SellSentinel := SellOffer(0.0, [])

  /** The offer consigns only owned copies, each bought below its price. */
  predicate ConsignsOwned(o: SellOffer, owned: seq<Asset>) {
    multiset(o.assets) <= multiset(owned) && forall a :: a in o.assets ==> Bought(a) < o.price
  }

  /** LeaveOldOrSellHalfProfitableAtX: the factor is ignored; the threshold is
      always 2% above the last price. */
  function HalfProfitableAtX(factor: real, lastPrice: real, owned: seq<Asset>, outstandingSells: seq<Order>): (r: seq<SellOffer>)
    ensures |outstandingSells| > 0 ==> r == [SellSentinel]
    ensures |outstandingSells| == 0 ==>
      |r| == 1 && r[0].price == lastPrice * 1.02 &&
      |r[0].assets| <= |owned| / 2 &&
      (var profitable := |BoughtBelow(owned, lastPrice * 1.02)|;
       |r[0].assets| == if |owned| / 2 < profitable then |owned| / 2 else profitable) &&
      (forall a :: a in r[0].assets ==> a in owned && Bought(a) < lastPrice * 1.02) &&
      r[0].assets <= SortByBought(BoughtBelow(owned, lastPrice * 1.02))
    ensures |outstandingSells| == 0 ==> ConsignsOwned(r[0], owned)
  {
    if |outstandingSells| > 0 then [SellSentinel]
    else
      var threshold := lastPrice * 1.02;
      var chosen := Take(SortByBought(BoughtBelow(owned, threshold)), |owned| / 2);
      ProfitableFromSorted(owned, threshold, chosen);
      SortedChoiceFromOwned(owned, threshold, chosen);
      [SellOffer(threshold, chosen)]
  }

  /** A prefix of the profitable assets sorted by purchase price consigns only
      owned copies, each bought below the threshold. */
  lemma SortedChoiceFromOwned(owned: seq<Asset>, threshold: real, chosen: seq<Asset>)
    requires chosen <= SortByBought(BoughtBelow(owned, threshold))
    ensures ConsignsOwned(SellOffer(threshold, chosen), owned)
  {
    var sorted := SortByBought(BoughtBelow(owned, threshold));
    assert sorted == chosen + sorted[|chosen|..];
    assert multiset(sorted) == multiset(chosen) + multiset(sorted[|chosen|..]);
    ProfitableFromSorted(owned, threshold, chosen);
  }

  // The named sell strategies

  function LeaveOldOrSellHalfProfitableAtLastPrice(): SellStrategy { SellStrategy(false, HalfProfitable(1.0)) }
  function LeaveOldOrSellHalfProfitableAtTwoPercentMore(): SellStrategy { SellStrategy(false, HalfProfitable(1.02)) }
  function LeaveOldOrSellAllProfitableAtLastPrice(): SellStrategy { SellStrategy(false, AllProfitable(1.0)) }
  function LeaveOldOrSellAllProfitableAtTwoPercentMore(): SellStrategy { SellStrategy(false, AllProfitable(1.02)) }
  function LeaveOldOrSellProfitablePeakAt99(): SellStrategy { SellStrategy(false, ProfitablePeak(0.99)) }
  function LeaveOldOrSellProfitablePeakAtLatest(): SellStrategy { SellStrategy(false, ProfitablePeak(1.0)) }
  function LeaveOldOrSellProfitablePeakAt101(): SellStrategy { SellStrategy(false, ProfitablePeak(1.01)) }
  function CancelOldAndSellAllProfitableAtLastPrice(): SellStrategy { SellStrategy(true, AllProfitable(1.0)) }
  function CancelOldAndSellHalfProfitableAtLastPrice(): SellStrategy { SellStrategy(true, HalfProfitable(1.0)) }
  function CancelOldAndSellHalfProfitableAtTwoPercentMore(): SellStrategy { SellStrategy(true, HalfProfitable(1.02)) }
  function CancelOldAndSellAllProfitableAtTwoPercentMore(): SellStrategy { SellStrategy(true, AllProfitable(1.02)) }
  function CancelOldAndSellProfitablePeakAt99(): SellStrategy { SellStrategy(true, ProfitablePeak(0.99)) }
  function CancelOldAndSellProfitablePeakAtLatest(): SellStrategy { SellStrategy(true, ProfitablePeak(1.0)) }
  function CancelOldAndSellProfitablePeakAt101(): SellStrategy { SellStrategy(true, ProfitablePeak(1.01)) }

  /** The half-profitable rule offers the same assets at the same price whatever
      factor it is given. */
  lemma HalfProfitableIgnoresFactor(f1: real, f2: real, lastPrice: real, owned: seq<Asset>, outstandingSells: seq<Order>)
    ensures HalfProfitableAtX(f1, lastPrice, owned, outstandingSells) == HalfProfitableAtX(f2, lastPrice, owned, outstandingSells)
  {
  }

  lemma {:induction false} ProfitableFromSorted(owned: seq<Asset>, threshold: real, chosen: seq<Asset>)
    requires chosen <= SortByBought(BoughtBelow(owned, threshold))
    ensures forall a :: a in chosen ==> a in owned && Bought(a) < threshold
  {
    var sorted := SortByBought(BoughtBelow(owned, threshold));
    forall a | a in chosen
      ensures a in owned && Bought(a) < threshold
    {
      assert a in sorted;
      assert a in multiset(sorted);
    }
  }

  /** LeaveOldOrSellAllProfitableAtX: every owned asset bought below
      last × factor, at that price. */
  function AllProfitableAtX(factor: real, lastPrice: real, owned: seq<Asset>, outstandingSells: seq<Order>): (r: seq<SellOffer>)
    ensures |outstandingSells| > 0 ==> r == [SellSentinel]
    ensures |outstandingSells| == 0 ==>
      |r| == 1 && r[0].price == lastPrice * factor &&
      (forall a :: a in r[0].assets <==> a in owned && Bought(a) < lastPrice * factor) &&
      multiset(r[0].assets) <= multiset(owned)
    ensures |outstandingSells| == 0 ==> r[0].assets == BoughtBelow(owned, lastPrice * factor)
  {
    if |outstandingSells| > 0 then [SellSentinel]
    else [SellOffer(lastPrice * factor, BoughtBelow(owned, lastPrice * factor))]
  }

  /** count × total / 10 in integer arithmetic: the counters act as a weight in
      tenths. */
  function Share(count: nat, total: nat): nat {
    count * total / 10
  }

  /** LeaveOldOrSellProfitablePeakAtX: sells count/10 of the profitable assets,
      cheapest-bought first, where count is the number of rising ticks leading
      into the present; yields nothing when no asset is profitable. */
  function ProfitablePeakAtX(factor: real, lastPrice: real, history: seq<AssetPrice>, owned: seq<Asset>, outstandingSells: seq<Order>): (r: seq<SellOffer>)
    ensures |r| <= 1
    ensures |outstandingSells| == 0 && |r| == 1 ==> r[0].price == lastPrice * factor
    ensures |outstandingSells| > 0 ==> r == [SellSentinel]
    ensures |outstandingSells| == 0 ==>
      var profitable := BoughtBelow(owned, lastPrice * factor);
      (|profitable| == 0 <==> r == []) &&
      (|profitable| > 0 ==>
        var n := Share(PeakCount(history), |profitable|);
        |r| == 1 && r[0].price == lastPrice * factor &&
        |r[0].assets| == (if n < |profitable| then n else |profitable|) &&
        r[0].assets <= SortByBought(profitable))
    ensures |outstandingSells| == 0 && |r| == 1 ==> ConsignsOwned(r[0], owned)
  {
    if |outstandingSells| > 0 then [SellSentinel]
    else
      var count := PeakCount(history);
      var orderPrice := lastPrice * factor;
      var candidates := SortByBought(BoughtBelow(owned, orderPrice));
      if |candidates| > 0 then
        var maxNumToSell := Share(count, |candidates|);
        SortedChoiceFromOwned(owned, orderPrice, Take(candidates, maxNumToSell));
        [SellOffer(orderPrice, Take(candidates, maxNumToSell))]
      else []
  }

  /** The sell instructions of a rule: the sentinel while a sell is
      outstanding, otherwise at most one offer (none only from the peak rule)
      at last × factor, or 102% of the last price for the half rule (which
      assets it consigns is `SellRuleConsignsOwned`). */
  function ApplySellRule(rule: SellRule, lastPrice: real, history: seq<AssetPrice>, owned: seq<Asset>, outstandingSells: seq<Order>): (r: seq<SellOffer>)
    ensures |outstandingSells| > 0 ==> r == [SellSentinel]
    ensures |r| <= 1
    ensures |outstandingSells| == 0 && !rule.ProfitablePeak? ==> |r| == 1
    ensures |outstandingSells| == 0 && rule.HalfProfitable? ==> r[0].price == lastPrice * 1.02
    ensures |outstandingSells| == 0 && !rule.HalfProfitable? && |r| == 1 ==> r[0].price == lastPrice * rule.factor
  {
    if rule.ProfitablePeak? then ProfitablePeakAtX(rule.factor, lastPrice, history, owned, outstandingSells)
    else ApplyProfitableRule(rule, lastPrice, owned, outstandingSells)
  }

  /** The two rules that always answer with one offer. */
  function ApplyProfitableRule(rule: SellRule, lastPrice: real, owned: seq<Asset>, outstandingSells: seq<Order>): (r: seq<SellOffer>)
    requires !rule.ProfitablePeak?
    ensures |outstandingSells| > 0 ==> r == [SellSentinel]
    ensures |r| == 1
    ensures |outstandingSells| == 0 && rule.HalfProfitable? ==> r[0].price == lastPrice * 1.02
    ensures |outstandingSells| == 0 && rule.AllProfitable? ==> r[0].price == lastPrice * rule.factor
  {
    if rule.HalfProfitable? then HalfProfitableAtX(rule.factor, lastPrice, owned, outstandingSells)
    else AllProfitableAtX(rule.factor, lastPrice, owned, outstandingSells)
  }

  /** Every sell rule consigns only assets the bot owns, never more copies of
      one than it owns, each bought below the offer's price. */
  lemma SellRuleConsignsOwned(rule: SellRule, lastPrice: real, history: seq<AssetPrice>, owned: seq<Asset>)
    ensures var r := ApplySellRule(rule, lastPrice, history, owned, []);
      |r| == 1 ==> ConsignsOwned(r[0], owned)
  {
    if rule.ProfitablePeak? {
      assert ApplySellRule(rule, lastPrice, history, owned, []) == ProfitablePeakAtX(rule.factor, lastPrice, history, owned, []);
    } else if rule.HalfProfitable? {
      assert ApplySellRule(rule, lastPrice, history, owned, []) == HalfProfitableAtX(rule.factor, lastPrice, owned, []);
    }
  }

  // ---------------------------------------------------------------------
  // The catalogue of deterministic strategies

  predicate HasPrefix(p: string, s: string) {
    |p| <= |s| && s[..|p|] == p
  }

  /** The seven LeaveOld… buy strategies under their method names. */
  function LeaveOldBuys(): (r: seq<(string, BuyStrategy)>)
    ensures |r| == 7
    ensures forall i :: 0 <= i < |r| ==> !r[i].1.cancelOld
    ensures forall i :: 0 <= i < |r| ==> HasPrefix("LeaveOldOr", r[i].0) && !HasPrefix("CancelOldAnd", r[i].0)
  {
    [(LeaveOldName("BuyAsManyAsYouCanAffordAtLastPrice"), LeaveOldOrBuyAsManyAsYouCanAffordAtLastPrice()),
     (LeaveOldName("BuyHalfAsManyAsYouCanAffordAtLastPrice"), LeaveOldOrBuyHalfAsManyAsYouCanAffordAtLastPrice()),
     (LeaveOldName("BuyAsManyAsYouCanAffordAtTwoPercentLess"), LeaveOldOrBuyAsManyAsYouCanAffordAtTwoPercentLess()),
     (LeaveOldName("BuyHalfAsManyAsYouCanAffordAtTwoPercentLess"), LeaveOldOrBuyHalfAsManyAsYouCanAffordAtTwoPercentLess()),
     (LeaveOldName("BuyTheDipAt99"), LeaveOldOrBuyTheDipAt99()),
     (LeaveOldName("BuyTheDipAtLatest"), LeaveOldOrBuyTheDipAtLatest()),
     (LeaveOldName("BuyTheDipAt101"), LeaveOldOrBuyTheDipAt101())]
  }

  /** The seven CancelOld… buy strategies under their method names, in the
      order of their LeaveOld… twins: each has its twin's name after
      "CancelOldAnd" and runs its twin's rule after cancelling. */
  function CancelOldBuys(): (r: seq<(string, BuyStrategy)>)
    ensures |r| == |LeaveOldBuys()|
    ensures forall i :: 0 <= i < |r| ==> r[i].1.cancelOld && HasPrefix("CancelOldAnd", r[i].0)
  {
    [(CancelOldName("BuyAsManyAsYouCanAffordAtLastPrice"), CancelOldAndBuyAsManyAsYouCanAffordAtLastPrice()),
     (CancelOldName("BuyHalfAsManyAsYouCanAffordAtLastPrice"), CancelOldAndBuyHalfAsManyAsYouCanAffordAtLastPrice()),
     (CancelOldName("BuyAsManyAsYouCanAffordAtTwoPercentLess"), CancelOldAndBuyAsManyAsYouCanAffordAtTwoPercentLess()),
     (CancelOldName("BuyHalfAsManyAsYouCanAffordAtTwoPercentLess"), CancelOldAndBuyHalfAsManyAsYouCanAffordAtTwoPercentLess()),
     (CancelOldName("BuyTheDipAt99"), CancelOldAndBuyTheDipAt99()),
     (CancelOldName("BuyTheDipAtLatest"), CancelOldAndBuyTheDipAtLatest()),
     (CancelOldName("BuyTheDipAt101"), CancelOldAndBuyTheDipAt101())]
  }

  /** Each CancelOld… buy strategy is its LeaveOld… twin set to cancel
      first, under the twin's name after "CancelOldAnd". */
  lemma CancelOldBuysAreTwins()
    ensures forall i :: 0 <= i < |CancelOldBuys()| ==> CancelOldBuys()[i].1 == LeaveOldBuys()[i].1.(cancelOld := true)
    ensures forall i :: 0 <= i < |CancelOldBuys()| ==>
      CancelOldBuys()[i].0 == CancelOldName(LeaveOldBuys()[i].0[10..])
  {
  }

  /** Running the CancelOld… twin of a LeaveOld… buy strategy (the pairs
      CancelOldBuysAreTwins lines up) with some money bids what the LeaveOld…
      strategy bids with the total that cancelling the outstanding buys
      releases, as if none were outstanding. */
  lemma BuyTwinRunsAlike(leave: BuyStrategy, cancel: BuyStrategy, money: real, total: real, lastPrice: real, history: seq<AssetPrice>, outstandingBuys: seq<Order>)
    requires !leave.cancelOld && cancel == leave.(cancelOld := true)
    requires total == money + SumReserved(outstandingBuys)
    ensures RunBuyStrategy(cancel, money, lastPrice, history, outstandingBuys).offers
         == RunBuyStrategy(leave, total, lastPrice, history, []).offers
  {
    var offers := ApplyBuyRule(leave.rule, total, lastPrice, history, []);
    assert RunBuyStrategy(cancel, money, lastPrice, history, outstandingBuys).offers == offers by {
      assert cancel.rule == leave.rule && cancel.cancelOld;
    }
    assert RunBuyStrategy(leave, total, lastPrice, history, []).offers == offers;
  }

  /** The seven LeaveOld… sell strategies under their method names. */
  function LeaveOldSells(): (r: seq<(string, SellStrategy)>)
    ensures |r| == 7
    ensures forall i :: 0 <= i < |r| ==> !r[i].1.cancelOld
    ensures forall i :: 0 <= i < |r| ==> HasPrefix("LeaveOldOr", r[i].0) && !HasPrefix("CancelOldAnd", r[i].0)
  {
    [(LeaveOldName("SellHalfProfitableAtLastPrice"), LeaveOldOrSellHalfProfitableAtLastPrice()),
     (LeaveOldName("SellHalfProfitableAtTwoPercentMore"), LeaveOldOrSellHalfProfitableAtTwoPercentMore()),
     (LeaveOldName("SellAllProfitableAtLastPrice"), LeaveOldOrSellAllProfitableAtLastPrice()),
     (LeaveOldName("SellAllProfitableAtTwoPercentMore"), LeaveOldOrSellAllProfitableAtTwoPercentMore()),
     (LeaveOldName("SellProfitablePeakAt99"), LeaveOldOrSellProfitablePeakAt99()),
     (LeaveOldName("SellProfitablePeakAtLatest"), LeaveOldOrSellProfitablePeakAtLatest()),
     (LeaveOldName("SellProfitablePeakAt101"), LeaveOldOrSellProfitablePeakAt101())]
  }

  /** The seven CancelOld… sell strategies under their method names, in the
      order of their LeaveOld… twins: each has its twin's name after
      "CancelOldAnd" and runs its twin's rule after cancelling. */
  function CancelOldSells(): (r: seq<(string, SellStrategy)>)
    ensures |r| == |LeaveOldSells()|
    ensures forall i :: 0 <= i < |r| ==> r[i].1.cancelOld && HasPrefix("CancelOldAnd", r[i].0)
  {
    [(CancelOldName("SellHalfProfitableAtLastPrice"), CancelOldAndSellHalfProfitableAtLastPrice()),
     (CancelOldName("SellHalfProfitableAtTwoPercentMore"), CancelOldAndSellHalfProfitableAtTwoPercentMore()),
     (CancelOldName("SellAllProfitableAtLastPrice"), CancelOldAndSellAllProfitableAtLastPrice()),
     (CancelOldName("SellAllProfitableAtTwoPercentMore"), CancelOldAndSellAllProfitableAtTwoPercentMore()),
     (CancelOldName("SellProfitablePeakAt99"), CancelOldAndSellProfitablePeakAt99()),
     (CancelOldName("SellProfitablePeakAtLatest"), CancelOldAndSellProfitablePeakAtLatest()),
     (CancelOldName("SellProfitablePeakAt101"), CancelOldAndSellProfitablePeakAt101())]
  }

  /** Each CancelOld… sell strategy is its LeaveOld… twin set to cancel
      first, under the twin's name after "CancelOldAnd". */
  lemma CancelOldSellsAreTwins()
    ensures forall i :: 0 <= i < |CancelOldSells()| ==> CancelOldSells()[i].1 == LeaveOldSells()[i].1.(cancelOld := true)
    ensures forall i :: 0 <= i < |CancelOldSells()| ==>
      CancelOldSells()[i].0 == CancelOldName(LeaveOldSells()[i].0[10..])
  {
  }

  /** Running a CancelOld… sell strategy offers what its LeaveOld… twin
      offers from the holdings restored by cancelling every outstanding sell;
      the twin itself cancels nothing. */
  lemma CancelOldSellRunsTwin(i: int, lastPrice: real, history: seq<AssetPrice>, owned: seq<Asset>, outstandingSells: seq<Order>)
    requires 0 <= i < |LeaveOldSells()|
    ensures RunSellStrategy(CancelOldSells()[i].1, lastPrice, history, owned, outstandingSells).offers
         == RunSellStrategy(LeaveOldSells()[i].1, lastPrice, history, CancelOutstandingSellOrdersAndGetAllAssets(owned, outstandingSells).0, []).offers
    ensures RunSellStrategy(LeaveOldSells()[i].1, lastPrice, history, owned, outstandingSells).cancellations == []
  {
    CancelOldSellsAreTwins();
  }

  /** The name of a LeaveOld… method, given what follows "LeaveOldOr". */
  function LeaveOldName(x: string): (n: string)
    ensures HasPrefix("LeaveOldOr", n) && !HasPrefix("CancelOldAnd", n) && n[10..] == x
  {
    var n := "LeaveOldOr" + x;
    assert n[..10] == "LeaveOldOr" && n[0] == 'L';
    n
  }

  /** The name of a CancelOld… method, given what follows "CancelOldAnd". */
  function CancelOldName(x: string): (n: string)
    ensures HasPrefix("CancelOldAnd", n) && n[12..] == x
  {
    var n := "CancelOldAnd" + x;
    assert n[..12] == "CancelOldAnd";
    n
  }

  // ---------------------------------------------------------------------
  // Cancelling everything outstanding

  function SumReserved(orders: seq<Order>): real
    decreases |orders|
  {
    if |orders| == 0 then 0.0 else SumReserved(orders[..|orders| - 1]) + orders[|orders| - 1].reserved
  }

  /** All assets consigned in the given orders, in order. */
  function ConsignedAssets(orders: seq<Order>): seq<Asset>
    decreases |orders|
  {
    if |orders| == 0 then [] else ConsignedAssets(orders[..|orders| - 1]) + orders[|orders| - 1].assets
  }

  /** Cancels each order in turn, collecting the cancelled orders and their
      receipts. */
  function CancelAll(orders: seq<Order>): (r: (seq<Order>, seq<Receipt>))
    ensures |r.0| == |orders| && |r.1| == |orders|
    ensures forall i :: 0 <= i < |orders| ==>
      r.0[i] == orders[i].(isCancelled := true) && r.1[i] == CancelledReceipt(r.0[i], orders[i].reserved)
    decreases |orders|
  {
    if |orders| == 0 then ([], [])
    else
      var (done, receipts) := CancelAll(orders[..|orders| - 1]);
      var (c, receipt) := CancelOrder(orders[|orders| - 1]);
      (done + [c], receipts + [receipt])
  }

  /** CancelOutstandingBuyOrdersAndGetTotalMoney: adds up money and reserves
      while cancelling every order. */
  function CancelOutstandingBuyOrdersAndGetTotalMoney(money: real, orders: seq<Order>): (r: (real, seq<Receipt>))
    ensures r.0 == money + SumReserved(orders)
    ensures |r.1| == |orders|
    ensures forall i :: 0 <= i < |orders| ==> r.1[i] == CancelledReceipt(orders[i].(isCancelled := true), orders[i].reserved)
    decreases |orders|
  {
    if |orders| == 0 then (money, [])
    else
      var (c, receipt) := CancelOrder(orders[0]);
      var (total, rest) := CancelOutstandingBuyOrdersAndGetTotalMoney(money + orders[0].reserved, orders[1..]);
      SumReservedCons(orders);
      (total, [receipt] + rest)
  }

  lemma {:induction false} SumReservedCons(orders: seq<Order>)
    requires |orders| > 0
    ensures SumReserved(orders) == orders[0].reserved + SumReserved(orders[1..])
    decreases |orders|
  {
    if |orders| > 1 {
      assert orders[..|orders| - 1][1..] == orders[1..][..|orders[1..]| - 1];
      SumReservedCons(orders[..|orders| - 1]);
    }
  }

  /** CancelOutstandingSellOrdersAndGetAllAssets: the owned assets followed by
      every order's consigned assets, cancelling every order. */
  function CancelOutstandingSellOrdersAndGetAllAssets(owned: seq<Asset>, orders: seq<Order>): (r: (seq<Asset>, seq<Receipt>))
    ensures r.0 == owned + ConsignedAssets(orders)
    ensures multiset(r.0) == multiset(owned) + multiset(ConsignedAssets(orders))
    ensures owned <= r.0
    ensures |r.1| == |orders|
    ensures forall i :: 0 <= i < |orders| ==> r.1[i] == CancelledReceipt(orders[i].(isCancelled := true), orders[i].reserved)
    decreases |orders|
  {
    if |orders| == 0 then (owned, [])
    else
      var receipt := CancelOrder(orders[0]).1;
      var later := CancelOutstandingSellOrdersAndGetAllAssets(owned + orders[0].assets, orders[1..]);
      ConsignedCons(orders);
      assert (owned + orders[0].assets) + ConsignedAssets(orders[1..]) == owned + ConsignedAssets(orders);
      assert owned <= later.0;
      (later.0, [receipt] + later.1)
  }

  lemma {:induction false} ConsignedCons(orders: seq<Order>)
    requires |orders| > 0
    ensures ConsignedAssets(orders) == orders[0].assets + ConsignedAssets(orders[1..])
    decreases |orders|
  {
    if |orders| > 1 {
      assert orders[..|orders| - 1][1..] == orders[1..][..|orders[1..]| - 1];
      ConsignedCons(orders[..|orders| - 1]);
    }
  }

  // ---------------------------------------------------------------------
  // Running a strategy

  /** What a strategy decides: the receipts of the orders it cancelled (in
      cancellation order) and its instructions. */
  datatype BuyDecision = BuyDecision(cancellations: seq<Receipt>, offers: seq<BuyOffer>)
  datatype SellDecision = SellDecision(cancellations: seq<Receipt>, offers: seq<SellOffer>)

  function RunBuyStrategy(s: BuyStrategy, money: real, lastPrice: real, history: seq<AssetPrice>, outstandingBuys: seq<Order>): (d: BuyDecision)
    ensures !s.cancelOld ==> d.cancellations == [] && d.offers == ApplyBuyRule(s.rule, money, lastPrice, history, outstandingBuys)
    ensures s.cancelOld ==>
      |d.cancellations| == |outstandingBuys| &&
      d.offers == ApplyBuyRule(s.rule, money + SumReserved(outstandingBuys), lastPrice, history, [])
  {
    if s.cancelOld then
      var (total, receipts) := CancelOutstandingBuyOrdersAndGetTotalMoney(money, outstandingBuys);
      BuyDecision(receipts, ApplyBuyRule(s.rule, total, lastPrice, history, []))
    else BuyDecision([], ApplyBuyRule(s.rule, money, lastPrice, history, outstandingBuys))
  }

  function RunSellStrategy(s: SellStrategy, lastPrice: real, history: seq<AssetPrice>, owned: seq<Asset>, outstandingSells: seq<Order>): (d: SellDecision)
    ensures !s.cancelOld ==> d.cancellations == [] && d.offers == ApplySellRule(s.rule, lastPrice, history, owned, outstandingSells)
    ensures s.cancelOld ==>
      |d.cancellations| == |outstandingSells| &&
      d.offers == ApplySellRule(s.rule, lastPrice, history, CancelOutstandingSellOrdersAndGetAllAssets(owned, outstandingSells).0, [])
  {
    if s.cancelOld then
      var (all, receipts) := CancelOutstandingSellOrdersAndGetAllAssets(owned, outstandingSells);
      SellDecision(receipts, ApplySellRule(s.rule, lastPrice, history, all, []))
    else SellDecision([], ApplySellRule(s.rule, lastPrice, history, owned, outstandingSells))
  }
}
