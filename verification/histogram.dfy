/** Histograms (VolvasArena/Histogram.cs): buckets with a low (inclusive) and
    a high (exclusive) threshold, the values each bucket receives, the
    equal-width layout, the buckets in threshold order and the star scale of
    the printed bars. double.MinValue and double.MaxValue, which the source
    uses as open ends, are the markers NegInf and PosInf. The DEBUG checks
    are modelled as errors. */
module Histograms {
  import opened Wrappers

  datatype Bound = NegInf | Finite(x: real) | PosInf

  /** b <= v. */
  predicate AtMost(b: Bound, v: real) {
    b.NegInf? || (b.Finite? && b.x <= v)
  }

  /** v < b. */
  predicate Above(b: Bound, v: real) {
    b.PosInf? || (b.Finite? && v < b.x)
  }

  /** a < b on bounds. */
  predicate Less(a: Bound, b: Bound) {
    match (a, b)
    case (NegInf, NegInf) => false
    case (NegInf, _) => true
    case (Finite(x), Finite(y)) => x < y
    case (Finite(_), PosInf) => true
    case _ => false
  }

  /** a <= b on bounds: the order OrderBy uses on the low thresholds. */
  predicate LessEq(a: Bound, b: Bound) {
    a == b || Less(a, b)
  }

  /** HistogramBucket. */
  datatype Bucket = Bucket(low: Bound, high: Bound)

  predicate InBucket(b: Bucket, v: real) {
    AtMost(b.low, v) && Above(b.high, v)
  }

  /** The Where clause: the values a bucket receives, in input order. */
  function Filter(values: seq<real>, b: Bucket): (r: seq<real>)
    ensures |r| <= |values|
    ensures forall v :: v in r <==> v in values && InBucket(b, v)
    ensures forall v :: multiset(r)[v] == if InBucket(b, v) then multiset(values)[v] else 0
    decreases |values|
  {
    if |values| == 0 then []
    else
      var rest := Filter(values[1..], b);
      assert values == [values[0]] + values[1..];
      if InBucket(b, values[0]) then [values[0]] + rest else rest
  }

  /** Dictionary contents in insertion order. */
  datatype Histogram = Histogram(numberOfBuckets: int, entries: seq<(Bucket, seq<real>)>)

  predicate DistinctBuckets(bs: seq<Bucket>) {
    forall i, j :: 0 <= i < j < |bs| ==> bs[i] != bs[j]
  }

  function TotalCount(entries: seq<(Bucket, seq<real>)>): nat
    decreases |entries|
  {
    if |entries| == 0 then 0 else TotalCount(entries[..|entries| - 1]) + |entries[|entries| - 1].1|
  }

  /** InsertValuesIntoBuckets: Dictionary.Add rejects a repeated bucket, and
      the DEBUG build rejects a result that does not hold every value exactly
      once in total. */
  function InsertValues(bs: seq<Bucket>, values: seq<real>): (r: Result<seq<(Bucket, seq<real>)>>)
    ensures r.Ok? ==> DistinctBuckets(bs) && TotalCount(r.value) == |values|
    ensures r.Ok? ==> |r.value| == |bs| && forall i :: 0 <= i < |bs| ==> r.value[i].0 == bs[i]
    ensures r.Ok? ==> forall i :: 0 <= i < |bs| ==>
      forall v :: multiset(r.value[i].1)[v] == if InBucket(bs[i], v) then multiset(values)[v] else 0
    ensures DistinctBuckets(bs) && TotalCount(Entries(bs, values)) == |values| ==> r == Ok(Entries(bs, values))
  {
    if !DistinctBuckets(bs) then Err("An item with the same key has already been added")
    else
      var entries := Entries(bs, values);
      if TotalCount(entries) != |values| then Err("Expecting all items will be inserted")
      else Ok(entries)
  }

  function Entries(bs: seq<Bucket>, values: seq<real>): (r: seq<(Bucket, seq<real>)>)
    ensures |r| == |bs| && forall i :: 0 <= i < |bs| ==> r[i] == (bs[i], Filter(values, bs[i]))
  {
    seq(|bs|, i requires 0 <= i < |bs| => (bs[i], Filter(values, bs[i])))
  }

  /** The constructor taking explicit buckets. */
  function FromBuckets(bs: seq<Bucket>, values: seq<real>): (r: Result<Histogram>)
    ensures r.Ok? ==> r.value.numberOfBuckets == |bs| && Ok(r.value.entries) == InsertValues(bs, values)
  {
    var entries :- InsertValues(bs, values);
    Ok(Histogram(|bs|, entries))
  }

  // ---------------------------------------------------------------------
  // Counting values across buckets

  /** How many of the buckets contain v. */
  function CountContaining(bs: seq<Bucket>, v: real): nat
    decreases |bs|
  {
    if |bs| == 0 then 0 else CountContaining(bs[..|bs| - 1], v) + (if InBucket(bs[|bs| - 1], v) then 1 else 0)
  }

  /** Adjacent buckets meet and no bucket is empty: the DEBUG build's
      continuity check, extended to the first bucket. */
  predicate Chain(bs: seq<Bucket>) {
    (forall i :: 0 <= i < |bs| ==> Less(bs[i].low, bs[i].high)) &&
    (forall i :: 0 < i < |bs| ==> bs[i].low == bs[i - 1].high)
  }

  lemma LessTrans(a: Bound, b: Bound, c: Bound)
    requires Less(a, b) && Less(b, c)
    ensures Less(a, c)
  {
  }

  /** Low thresholds strictly increase along a chain. */
  lemma {:induction false} LowsIncrease(bs: seq<Bucket>, i: nat, j: nat)
    requires Chain(bs) && i < j < |bs|
    ensures Less(bs[i].low, bs[j].low)
    decreases j - i
  {
    if j == i + 1 {
    } else {
      LowsIncrease(bs, i, j - 1);
      LessTrans(bs[i].low, bs[j - 1].low, bs[j].low);
    }
  }

  /** A chain's buckets are pairwise different, so Dictionary.Add accepts them. */
  lemma ChainDistinct(bs: seq<Bucket>)
    requires Chain(bs)
    ensures DistinctBuckets(bs)
  {
    forall i, j | 0 <= i < j < |bs|
      ensures bs[i] != bs[j]
    {
      LowsIncrease(bs, i, j);
    }
  }

  /** A chain covers [first low, last high) exactly once. */
  lemma {:induction false} ChainCountsOnce(bs: seq<Bucket>, v: real)
    requires Chain(bs) && |bs| > 0
    ensures CountContaining(bs, v) == if AtMost(bs[0].low, v) && Above(bs[|bs| - 1].high, v) then 1 else 0
    decreases |bs|
  {
    var n := |bs| - 1;
    if n > 0 {
      var init := bs[..n];
      assert Chain(init);
      assert init[0] == bs[0] && init[n - 1] == bs[n - 1];
      ChainCountsOnce(init, v);
      if AtMost(bs[n].low, v) {
        // v is past every earlier bucket
        LowsIncrease(bs, 0, n);
      } else {
        BelowOrInside(bs, v);
      }
    }
  }

  lemma BelowOrInside(bs: seq<Bucket>, v: real)
    requires Chain(bs) && |bs| > 1 && !AtMost(bs[|bs| - 1].low, v)
    ensures !InBucket(bs[|bs| - 1], v) && Above(bs[|bs| - 2].high, v) && Above(bs[|bs| - 1].high, v)
  {
  }

  /** The values' bucket counts add up to the number of containing buckets,
      summed over the values. */
  function Coverage(bs: seq<Bucket>, values: seq<real>): nat
    decreases |values|
  {
    if |values| == 0 then 0 else CountContaining(bs, values[0]) + Coverage(bs, values[1..])
  }

  lemma {:induction false} TotalIsCoverage(bs: seq<Bucket>, values: seq<real>)
    ensures TotalCount(Entries(bs, values)) == Coverage(bs, values)
    decreases |values|
  {
    if |values| == 0 {
      EmptyTotal(bs);
    } else {
      TotalIsCoverage(bs, values[1..]);
      TotalStep(bs, values);
    }
  }

  lemma {:induction false} EmptyTotal(bs: seq<Bucket>)
    ensures TotalCount(Entries(bs, [])) == 0
    decreases |bs|
  {
    if |bs| > 0 {
      EmptyTotal(bs[..|bs| - 1]);
      assert Entries(bs, [])[..|bs| - 1] == Entries(bs[..|bs| - 1], []);
    }
  }

  /** Peeling the first value off every bucket at once. */
  lemma {:induction false} TotalStep(bs: seq<Bucket>, values: seq<real>)
    requires |values| > 0
    ensures TotalCount(Entries(bs, values)) == CountContaining(bs, values[0]) + TotalCount(Entries(bs, values[1..]))
    decreases |bs|
  {
    if |bs| > 0 {
      var init := bs[..|bs| - 1];
      TotalStep(init, values);
      assert Entries(bs, values)[..|bs| - 1] == Entries(init, values);
      assert Entries(bs, values[1..])[..|bs| - 1] == Entries(init, values[1..]);
    }
  }

  /** v lies between a chain's first low and last high threshold. */
  predicate InSpan(bs: seq<Bucket>, v: real)
    requires |bs| > 0
  {
    AtMost(bs[0].low, v) && Above(bs[|bs| - 1].high, v)
  }

  /** Over a chain, values within its span each lie in exactly one bucket,
      so the bucket sizes add up to the number of values. */
  lemma {:induction false} ChainTotal(bs: seq<Bucket>, values: seq<real>)
    requires Chain(bs) && |bs| > 0
    requires forall i :: 0 <= i < |values| ==> InSpan(bs, values[i])
    ensures TotalCount(Entries(bs, values)) == |values|
  {
    TotalIsCoverage(bs, values);
    CoverageInChain(bs, values);
  }

  lemma {:induction false} CoverageInChain(bs: seq<Bucket>, values: seq<real>)
    requires Chain(bs) && |bs| > 0
    requires forall i :: 0 <= i < |values| ==> InSpan(bs, values[i])
    ensures Coverage(bs, values) == |values|
    decreases |values|
  {
    if |values| > 0 {
      ChainCountsOnce(bs, values[0]);
      assert forall i :: 0 <= i < |values| - 1 ==> values[1..][i] == values[i + 1];
      CoverageInChain(bs, values[1..]);
    }
  }

  /** Over such a chain the value insertion never fails, and each value in
      the span appears in exactly the one bucket whose range holds it. */
  lemma ChainInsert(bs: seq<Bucket>, values: seq<real>)
    requires Chain(bs) && |bs| > 0
    requires forall i :: 0 <= i < |values| ==> InSpan(bs, values[i])
    ensures InsertValues(bs, values) == Ok(Entries(bs, values))
    ensures forall v :: InSpan(bs, v) ==> CountContaining(bs, v) == 1
  {
    ChainDistinct(bs);
    ChainTotal(bs, values);
    forall v | InSpan(bs, v)
      ensures CountContaining(bs, v) == 1
    {
      ChainCountsOnce(bs, v);
    }
  }

  /** A chain from NegInf to PosInf spans every value. */
  lemma FullChainSpansAll(bs: seq<Bucket>)
    requires |bs| > 0 && bs[0].low == NegInf && bs[|bs| - 1].high == PosInf
    ensures forall v :: InSpan(bs, v)
  {
  }

  // ---------------------------------------------------------------------
  // The equal-width layout

  /** [low + k·step, low + (k+1)·step). */
  function Band(low: real, step: real, k: int): Bucket {
    Bucket(Finite(low + k as real * step), Finite(low + (k + 1) as real * step))
  }

  lemma BandShift(low: real, step: real, k: int)
    ensures Band(low + step, step, k) == Band(low, step, k + 1)
  {
    assert low + step + k as real * step == low + (k + 1) as real * step;
    assert low + step + (k + 1) as real * step == low + (k + 2) as real * step;
  }

  lemma BandNonEmpty(low: real, step: real, k: int)
    requires step > 0.0
    ensures Less(Band(low, step, k).low, Band(low, step, k).high)
  {
    assert (k + 1) as real * step == k as real * step + step;
  }

  /** The constructor's loop: add the step to the running low, then add a
      bucket one step wide. Returns the buckets and the final running low. */
  function StepBuckets(low: real, step: real, count: nat): (r: (seq<Bucket>, real))
    ensures |r.0| == count
    decreases count
  {
    if count == 0 then ([], low)
    else
      var next := low + step;
      var rest := StepBuckets(next, step, count - 1);
      ([Bucket(Finite(next), Finite(next + step))] + rest.0, rest.1)
  }

  /** The closed form of the loop: its k-th bucket is band k + 1, and the
      running low ends count steps up. */
  lemma {:induction false} StepBucketsShape(low: real, step: real, count: nat)
    ensures StepBuckets(low, step, count).1 == low + count as real * step
    ensures forall k :: 0 <= k < count ==> StepBuckets(low, step, count).0[k] == Band(low, step, k + 1)
    decreases count
  {
    if count > 0 {
      var next := low + step;
      StepBucketsShape(next, step, count - 1);
      var r := StepBuckets(low, step, count);
      var rest := StepBuckets(next, step, count - 1);
      assert next + (count - 1) as real * step == low + count as real * step;
      forall k | 0 <= k < count
        ensures r.0[k] == Band(low, step, k + 1)
      {
        if k > 0 {
          assert r.0[k] == rest.0[k - 1];
          BandShift(low, step, k);
        } else {
          assert next + step == low + 2.0 * step;
        }
      }
    }
  }

  function Min(values: seq<real>): (m: real)
    requires |values| > 0
    ensures m in values && forall i :: 0 <= i < |values| ==> m <= values[i]
    decreases |values|
  {
    if |values| == 1 then values[0]
    else
      var m := Min(values[1..]);
      assert forall i :: 1 <= i < |values| ==> values[1..][i - 1] == values[i];
      if values[0] <= m then values[0] else m
  }

  function Max(values: seq<real>): (m: real)
    requires |values| > 0
    ensures m in values && forall i :: 0 <= i < |values| ==> values[i] <= m
    decreases |values|
  {
    if |values| == 1 then values[0]
    else
      var m := Max(values[1..]);
      assert forall i :: 1 <= i < |values| ==> values[1..][i - 1] == values[i];
      if m <= values[0] then values[0] else m
  }

  /** The equal-width constructor's buckets: an open first bucket, the
      loop's buckets, an open last bucket. The DEBUG build rejects a layout
      of the wrong length or one that is not continuous. */
  function EqualWidthLayout(n: int, values: seq<real>): (r: Result<(seq<Bucket>, real, real)>)
    ensures r.Ok? <==> |values| > 0 && n > 0
    ensures r.Ok? ==> |r.value.0| == n + 2 && Chain(r.value.0)
  {
    if |values| == 0 then Err("Sequence contains no elements")
    else if n <= 0 then Err("On a single bucket low should always be smaller than high")
    else
      var lo := Span(values).0;
      var step := Step(values, n);
      StepFacts(values, n);
      var bs := Layout(lo, step, n);
      if |bs| != n + 2 || !Chain(bs) then Err("Expecting buckets generating will be continous.")
      else Ok((bs, lo, step))
  }

  /** The equal-width constructor. It fails only for an empty input or a
      non-positive bucket count; otherwise every value lies in exactly one
      of the layout's buckets, so the insertion cannot lose one. */
  function EqualWidth(n: int, values: seq<real>): (r: Result<Histogram>)
    ensures r.Ok? <==> |values| > 0 && n > 0
    ensures r.Ok? ==> r.value.numberOfBuckets == n && |r.value.entries| == n + 2
    ensures r.Ok? ==> (EqualWidthLayout(n, values).Ok? &&
      Ok(r.value.entries) == InsertValues(EqualWidthLayout(n, values).value.0, values))
    ensures r.Ok? ==> r.value.entries == Entries(EqualWidthLayout(n, values).value.0, values)
    ensures r.Ok? ==> forall v :: CountContaining(EqualWidthLayout(n, values).value.0, v) == 1
  {
    var layout :- EqualWidthLayout(n, values);
    EqualWidthLayoutShape(n, values);
    FullChainSpansAll(layout.0);
    ChainInsert(layout.0, values);
    Ok(Histogram(n, InsertValues(layout.0, values).value))
  }

  /** The buckets the constructor lists: [NegInf, lo + step), band k for
      k = 1..n, that is [lo + k·step, lo + (k+1)·step), and
      [lo + (n+1)·step, PosInf); with a positive step they form a chain. */
  function Layout(lo: real, step: real, n: nat): (bs: seq<Bucket>)
    ensures |bs| == n + 2
    ensures bs[0] == Bucket(NegInf, Finite(lo + step))
    ensures bs[n + 1] == Bucket(Finite(lo + (n + 1) as real * step), PosInf)
    ensures forall k :: 1 <= k <= n ==> bs[k] == Band(lo, step, k)
    ensures step > 0.0 ==> Chain(bs)
  {
    var middle := StepBuckets(lo, step, n);
    StepBucketsShape(lo, step, n);
    var bs := [Bucket(NegInf, Finite(lo + step))] + middle.0 + [Bucket(Finite(middle.1 + step), PosInf)];
    assert middle.1 + step == lo + (n + 1) as real * step;
    assert forall k :: 1 <= k <= n ==> bs[k] == middle.0[k - 1];
    if step > 0.0 then
      LayoutIsChain(bs, lo, step, n);
      bs
    else bs
  }

  /** The smallest and largest value, the largest nudged up when the two
      coincide. */
  function Span(values: seq<real>): (r: (real, real))
    requires |values| > 0
    ensures r.0 == Min(values) && r.0 < r.1 && Max(values) <= r.1
    ensures Min(values) < Max(values) ==> r.1 == Max(values)
  {
    var lo := Min(values);
    var top := Max(values);
    (lo, if lo == top then top + 0.00001 else top)
  }

  /** For n buckets and a non-empty value list the layout starts at the
      smallest value with a positive step, reaches the largest value within
      n steps, and the DEBUG check never fires. */
  lemma {:induction false} EqualWidthLayoutShape(n: int, values: seq<real>)
    requires |values| > 0 && n > 0
    ensures Step(values, n) > 0.0 && Span(values).0 + n as real * Step(values, n) >= Max(values)
    ensures EqualWidthLayout(n, values) == Ok((Layout(Span(values).0, Step(values, n), n), Span(values).0, Step(values, n)))
  {
    StepFacts(values, n);
  }

  /** The width of the inner buckets. */
  function Step(values: seq<real>, n: int): real
    requires |values| > 0 && n > 0
  {
    (Span(values).1 - Span(values).0) / n as real
  }

  lemma StepFacts(values: seq<real>, n: int)
    requires |values| > 0 && n > 0
    ensures Step(values, n) > 0.0
    ensures Span(values).0 + n as real * Step(values, n) == Span(values).1
  {
    var lo := Span(values).0;
    var hi := Span(values).1;
    var step := Step(values, n);
    assert step == (hi - lo) / n as real;
    assert step * n as real == hi - lo;
  }

  lemma {:induction false} LayoutIsChain(bs: seq<Bucket>, lo: real, step: real, n: nat)
    requires step > 0.0 && |bs| == n + 2
    requires bs[0] == Bucket(NegInf, Finite(lo + step))
    requires bs[n + 1] == Bucket(Finite(lo + (n + 1) as real * step), PosInf)
    requires forall k :: 1 <= k <= n ==> bs[k] == Band(lo, step, k)
    ensures Chain(bs)
  {
    forall i | 0 <= i < |bs|
      ensures Less(bs[i].low, bs[i].high)
    {
      if 1 <= i <= n {
        BandNonEmpty(lo, step, i);
      }
    }
    forall i | 0 < i < |bs|
      ensures bs[i].low == bs[i - 1].high
    {
      if i == 1 {
        assert 1 as real * step == step;
      } else if i <= n {
        assert bs[i - 1] == Band(lo, step, i - 1);
      }
    }
  }

  /** A bucket starting above every value receives none of them. */
  lemma NothingAbove(values: seq<real>, b: Bucket, bound: real)
    requires forall i :: 0 <= i < |values| ==> values[i] < bound
    requires b.low == Finite(bound)
    ensures Filter(values, b) == []
  {
    forall v | v in values
      ensures !InBucket(b, v)
    {
    }
  }

  /** Bucket n + 1 starts a full step above the largest value, so the
      equal-width layout always leaves its last bucket empty. */
  lemma EqualWidthTopBucketEmpty(n: int, values: seq<real>)
    requires |values| > 0 && n > 0
    ensures EqualWidth(n, values).Ok? && EqualWidth(n, values).value.entries[n + 1].1 == []
  {
    EqualWidthLayoutShape(n, values);
    var layout := EqualWidthLayout(n, values).value;
    TopBandEmpty(n, values, layout.1, layout.2);
  }

  /** The equal-width layout's last bucket receives no value. */
  lemma TopBandEmpty(n: nat, values: seq<real>, lo: real, step: real)
    requires |values| > 0 && n > 0 && lo == Span(values).0 && step == Step(values, n)
    ensures Filter(values, Layout(lo, step, n)[n + 1]) == []
  {
    BandsReachMax(values, n, lo, step);
    LayoutTopEmpty(values, lo, step, n);
  }

  /** The open last bucket of a layout whose n bands reach every value
      receives none of them. */
  lemma LayoutTopEmpty(values: seq<real>, lo: real, step: real, n: nat)
    requires step > 0.0 && forall i :: 0 <= i < |values| ==> values[i] <= lo + n as real * step
    ensures Filter(values, Layout(lo, step, n)[n + 1]) == []
  {
    OneStepAbove(values, lo, step, n);
    NothingAbove(values, Layout(lo, step, n)[n + 1], lo + (n + 1) as real * step);
  }

  /** n steps from the smallest value reach the largest. */
  lemma BandsReachMax(values: seq<real>, n: nat, lo: real, step: real)
    requires |values| > 0 && n > 0 && lo == Span(values).0 && step == Step(values, n)
    ensures step > 0.0
    ensures forall i :: 0 <= i < |values| ==> values[i] <= lo + n as real * step
  {
    StepFacts(values, n);
    var top := Max(values);
    assert top <= lo + n as real * step;
    forall i | 0 <= i < |values|
      ensures values[i] <= lo + n as real * step
    {
      assert values[i] <= top;
    }
  }

  lemma OneStepAbove(values: seq<real>, lo: real, step: real, n: nat)
    requires step > 0.0 && forall i :: 0 <= i < |values| ==> values[i] <= lo + n as real * step
    ensures forall i :: 0 <= i < |values| ==> values[i] < lo + (n + 1) as real * step
  {
    var k := n as real;
    assert (n + 1) as real == k + 1.0;
    assert (k + 1.0) * step == k * step + step;
  }

  // ---------------------------------------------------------------------
  // Buckets in threshold order

  predicate SortedByLow(entries: seq<(Bucket, seq<real>)>) {
    forall i :: 0 < i < |entries| ==> LessEq(entries[i - 1].0.low, entries[i].0.low)
  }

  lemma LessEqTrans(a: Bound, b: Bound, c: Bound)
    requires LessEq(a, b) && LessEq(b, c)
    ensures LessEq(a, c)
  {
  }

  lemma LessEqTotal(a: Bound, b: Bound)
    ensures LessEq(a, b) || LessEq(b, a)
  {
  }

  lemma SortedSnoc(s: seq<(Bucket, seq<real>)>, x: (Bucket, seq<real>))
    requires SortedByLow(s) && (|s| > 0 ==> LessEq(s[|s| - 1].0.low, x.0.low))
    ensures SortedByLow(s + [x])
  {
  }

  /** Places e after every entry whose low threshold is not above e's, so
      equal thresholds keep their order (OrderBy is stable). */
  function InsertSorted(e: (Bucket, seq<real>), sorted: seq<(Bucket, seq<real>)>): (r: seq<(Bucket, seq<real>)>)
    requires SortedByLow(sorted)
    ensures SortedByLow(r) && multiset(r) == multiset(sorted) + multiset{e}
    ensures |r| == |sorted| + 1
    ensures r[|r| - 1] == e || (|sorted| > 0 && r[|r| - 1] == sorted[|sorted| - 1])
    decreases |sorted|
  {
    if |sorted| == 0 then [e]
    else
      var last := sorted[|sorted| - 1];
      if LessEq(last.0.low, e.0.low) then
        SortedSnoc(sorted, e);
        sorted + [e]
      else
        var init := sorted[..|sorted| - 1];
        assert SortedByLow(init);
        assert sorted == init + [last];
        var front := InsertSorted(e, init);
        LessEqTotal(last.0.low, e.0.low);
        SortedSnoc(front, last);
        front + [last]
  }

  /** GetOrderedBuckets: the entries in ascending order of low threshold. */
  function OrderedBuckets(entries: seq<(Bucket, seq<real>)>): (r: seq<(Bucket, seq<real>)>)
    ensures SortedByLow(r) && multiset(r) == multiset(entries) && |r| == |entries|
    decreases |entries|
  {
    if |entries| == 0 then []
    else
      var init := entries[..|entries| - 1];
      assert entries == init + [entries[|entries| - 1]];
      InsertSorted(entries[|entries| - 1], OrderedBuckets(init))
  }

  /** Entries already in order come out unchanged. */
  lemma {:induction false} OrderedBucketsKeepsSorted(entries: seq<(Bucket, seq<real>)>)
    requires SortedByLow(entries)
    ensures OrderedBuckets(entries) == entries
    decreases |entries|
  {
    if |entries| > 0 {
      var init := entries[..|entries| - 1];
      assert SortedByLow(init);
      OrderedBucketsKeepsSorted(init);
    }
  }

  // ---------------------------------------------------------------------
  // The star scale of Print

  function LongestBucket(entries: seq<(Bucket, seq<real>)>): (m: nat)
    ensures forall i :: 0 <= i < |entries| ==> |entries[i].1| <= m
    ensures |entries| > 0 ==> exists i :: 0 <= i < |entries| && |entries[i].1| == m
    decreases |entries|
  {
    if |entries| == 0 then 0
    else
      var m := LongestBucket(entries[..|entries| - 1]);
      assert forall i :: 0 <= i < |entries| - 1 ==> entries[..|entries| - 1][i] == entries[i];
      if |entries[|entries| - 1].1| > m then |entries[|entries| - 1].1| else m
  }

  /** (a + m - 1) / m: the least q with a <= q * m. */
  function CeilDiv(a: nat, m: int): (q: nat)
    requires m > 0
    ensures (q - 1) * m < a <= q * m
  {
    var q := (a + m - 1) / m;
    var rem := (a + m - 1) % m;
    assert q * m + rem == a + m - 1 && 0 <= rem < m;
    assert (q - 1) * m == q * m - m;
    q
  }

  /** The value of one star. Exactly one of the two options must be given
      (DEBUG); from a column height it is ⌈longest / height⌉, which has no
      value for a zero height, and Max rejects a histogram without buckets. */
  function ValueOfStar(h: Histogram, valueOfStar: Option<int>, maxStarsInColumn: Option<int>): (r: Result<int>)
    ensures r.Ok? <==>
      (valueOfStar.Some? != maxStarsInColumn.Some?) &&
      (maxStarsInColumn.Some? ==> maxStarsInColumn.value != 0 && |h.entries| > 0)
    ensures r.Ok? && valueOfStar.Some? ==> r.value == valueOfStar.value
    ensures r.Ok? && maxStarsInColumn.Some? && maxStarsInColumn.value > 0 ==>
      var m := maxStarsInColumn.value;
      (r.value - 1) * m < LongestBucket(h.entries) <= r.value * m
  {
    if valueOfStar.Some? == maxStarsInColumn.Some? then Err("Expecting that at exactly one of these arguemtns will be provided")
    else if valueOfStar.Some? then Ok(valueOfStar.value)
    else if maxStarsInColumn.value == 0 then Err("a star count of zero has no star value")
    else if |h.entries| == 0 then Err("Sequence contains no elements")
    else
      var longest := LongestBucket(h.entries);
      var m := maxStarsInColumn.value;
      if m > 0 then Ok(CeilDiv(longest, m))
      else
        // the quotient is at most zero; its ceiling truncates toward zero
        Ok(-(longest / (-m)))
  }

  /** Stars on one bar: one for a non-empty bucket, plus the size divided by
      the star value (C# integer division, toward zero); no stars for a
      negative quotient. A zero star value is a division by zero. */
  function Stars(count: nat, v: int): (r: Result<nat>)
    ensures r.Ok? <==> v != 0
    ensures r.Ok? && v > 0 ==> r.value == (if count > 0 then 1 else 0) + count / v
    ensures r.Ok? && v < 0 ==> r.value == (if count > 0 then 1 else 0)
  {
    if v == 0 then Err("Attempted to divide by zero.")
    else
      var quotient := if v > 0 then count / v else -(count / (-v));
      Ok((if count > 0 then 1 else 0) + (if quotient > 0 then quotient else 0))
  }

  function StarsPerBar(entries: seq<(Bucket, seq<real>)>, v: int): (r: Result<seq<nat>>)
    ensures r.Ok? <==> v != 0 || |entries| == 0
    ensures r.Ok? ==> |r.value| == |entries|
    ensures r.Ok? ==> forall i :: 0 <= i < |entries| ==> Ok(r.value[i]) == Stars(|entries[i].1|, v)
    decreases |entries|
  {
    if |entries| == 0 then Ok([])
    else if v == 0 then Err("Attempted to divide by zero.")
    else Ok([Stars(|entries[0].1|, v).value] + StarsPerBar(entries[1..], v).value)
  }

  /** The bars of Print, in threshold order: bar i belongs to the i-th
      bucket by lower bound and is empty exactly when that bucket is. With
      a positive column height, Print fails exactly when every bucket is
      empty (a zero star value); with a star value given, exactly when that
      value is zero and there is a bucket to divide. */
  function Bars(h: Histogram, valueOfStar: Option<int>, maxStarsInColumn: Option<int>): (r: Result<seq<nat>>)
    ensures r.Ok? ==> |r.value| == |h.entries|
    ensures r.Ok? ==> forall i :: 0 <= i < |r.value| ==>
      (r.value[i] > 0 <==> |OrderedBuckets(h.entries)[i].1| > 0)
    ensures valueOfStar.None? && maxStarsInColumn.Some? && maxStarsInColumn.value > 0 ==>
      (r.Ok? <==> LongestBucket(h.entries) > 0)
    ensures valueOfStar.Some? && maxStarsInColumn.None? ==>
      (r.Ok? <==> valueOfStar.value != 0 || |h.entries| == 0)
    ensures valueOfStar.Some? && maxStarsInColumn.None? && valueOfStar.value > 0 ==>
      r.Ok? && forall i :: 0 <= i < |r.value| ==>
        var c := |OrderedBuckets(h.entries)[i].1|;
        r.value[i] == (if c > 0 then 1 else 0) + c / valueOfStar.value
  {
    StarScaleDraws(h, valueOfStar, maxStarsInColumn);
    var v :- ValueOfStar(h, valueOfStar, maxStarsInColumn);
    DrawBars(OrderedBuckets(h.entries), v)
  }

  /** When Print's star value exists, the bars can be drawn exactly when
      it is not zero or there are no buckets. */
  lemma StarScaleDraws(h: Histogram, valueOfStar: Option<int>, maxStarsInColumn: Option<int>)
    ensures valueOfStar.None? && maxStarsInColumn.Some? && maxStarsInColumn.value > 0 ==>
      ((ValueOfStar(h, valueOfStar, maxStarsInColumn).Ok? &&
        StarsPerBar(OrderedBuckets(h.entries), ValueOfStar(h, valueOfStar, maxStarsInColumn).value).Ok?)
       <==> LongestBucket(h.entries) > 0)
  {
    if valueOfStar.None? && maxStarsInColumn.Some? && maxStarsInColumn.value > 0 {
      var s := ValueOfStar(h, valueOfStar, maxStarsInColumn);
      if s.Ok? {
        StarValueSign(s.value, maxStarsInColumn.value, LongestBucket(h.entries));
      }
    }
  }

  function DrawBars(ordered: seq<(Bucket, seq<real>)>, v: int): (r: Result<seq<nat>>)
    ensures r == StarsPerBar(ordered, v)
    ensures r.Ok? ==> forall i :: 0 <= i < |ordered| ==> (r.value[i] > 0 <==> |ordered[i].1| > 0)
    ensures r.Ok? && v > 0 ==> forall i :: 0 <= i < |ordered| ==>
      r.value[i] == (if |ordered[i].1| > 0 then 1 else 0) + |ordered[i].1| / v
  {
    var bars :- StarsPerBar(ordered, v);
    BarsOfBuckets(ordered, v);
    Ok(bars)
  }

  /** A star value fixed by a positive column height is zero exactly when
      the longest bucket is empty. */
  lemma StarValueSign(v: int, m: int, longest: nat)
    requires m > 0 && (v - 1) * m < longest <= v * m
    ensures v != 0 <==> longest > 0
  {
    if v > 0 {
      assert (v - 1) * m >= 0;
    }
  }

  /** A bar is empty exactly when its bucket is; for a positive star value
      it holds the leading star plus count / value more. */
  lemma BarsOfBuckets(entries: seq<(Bucket, seq<real>)>, v: int)
    requires StarsPerBar(entries, v).Ok?
    ensures forall i :: 0 <= i < |entries| ==>
      (StarsPerBar(entries, v).value[i] > 0 <==> |entries[i].1| > 0)
    ensures v > 0 ==> forall i :: 0 <= i < |entries| ==>
      StarsPerBar(entries, v).value[i] == (if |entries[i].1| > 0 then 1 else 0) + |entries[i].1| / v
  {
    var bars := StarsPerBar(entries, v).value;
    forall i | 0 <= i < |entries|
      ensures bars[i] > 0 <==> |entries[i].1| > 0
    {
      assert Ok(bars[i]) == Stars(|entries[i].1|, v);
    }
  }

  /** Values counted in the histogram fill at least one bucket. */
  lemma {:induction false} FilledBucket(entries: seq<(Bucket, seq<real>)>)
    requires TotalCount(entries) > 0
    ensures exists i :: 0 <= i < |entries| && |entries[i].1| > 0
    ensures LongestBucket(entries) > 0
    decreases |entries|
  {
    var last := |entries| - 1;
    if |entries[last].1| == 0 {
      var init := entries[..last];
      FilledBucket(init);
      var i :| 0 <= i < |init| && |init[i].1| > 0;
      assert entries[i] == init[i];
    }
  }

  /** An equal-width histogram of a non-empty list fills some bucket, so
      its bars can be drawn to any positive height. */
  lemma EqualWidthBarsDrawn(n: int, values: seq<real>, m: int)
    requires |values| > 0 && n > 0 && m > 0
    ensures EqualWidth(n, values).Ok?
    ensures Bars(EqualWidth(n, values).value, None, Some(m)).Ok?
  {
    FilledBucket(EqualWidth(n, values).value.entries);
  }

  /** Sorting keeps every bucket no larger than the longest. */
  lemma {:induction false} OrderedWithinLongest(entries: seq<(Bucket, seq<real>)>)
    ensures forall i :: 0 <= i < |entries| ==> |OrderedBuckets(entries)[i].1| <= LongestBucket(entries)
  {
    var sorted := OrderedBuckets(entries);
    forall i | 0 <= i < |sorted|
      ensures |sorted[i].1| <= LongestBucket(entries)
    {
      assert sorted[i] in multiset(entries);
    }
  }

  /** With only a positive column height given, no bar of a histogram with a
      non-empty bucket exceeds that height plus the leading star. */
  lemma {:induction false} BarsWithinHeight(h: Histogram, maxStars: int)
    requires maxStars > 0 && LongestBucket(h.entries) > 0
    ensures Bars(h, None, Some(maxStars)).Ok?
    ensures forall i :: 0 <= i < |h.entries| ==> Bars(h, None, Some(maxStars)).value[i] <= maxStars + 1
  {
    var v := ValueOfStar(h, None, Some(maxStars)).value;
    assert v >= 1 && LongestBucket(h.entries) <= v * maxStars;
    var sorted := OrderedBuckets(h.entries);
    assert Bars(h, None, Some(maxStars)) == StarsPerBar(sorted, v);
    var bars := StarsPerBar(sorted, v).value;
    OrderedWithinLongest(h.entries);
    forall i | 0 <= i < |sorted|
      ensures bars[i] <= maxStars + 1
    {
      assert Ok(bars[i]) == Stars(|sorted[i].1|, v);
      QuotientBound(|sorted[i].1|, v, maxStars);
    }
  }

  lemma QuotientBound(c: nat, v: int, m: int)
    requires v >= 1 && m >= 1 && c <= v * m
    ensures c / v <= m
  {
    var q := c / v;
    assert q * v <= c;
  }
}
