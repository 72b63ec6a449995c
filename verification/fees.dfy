/** The six transaction-cost (courtage) schedules of
    VolvasArena/TransactionCostCalculator.cs. The Avanza classes follow the
    broker's published courtage classes: a minimum fee, otherwise a fixed
    rate of the notional value. */
module Fees {
  import opened Assets

  datatype FeeSchedule =
    | AlwaysFree
    | AlwaysOne
    | AvanzaMini
    | AvanzaSmall
    | AvanzaMedium
    | AvanzaFastPris

  /** The lowest fee a schedule ever charges. */
  function Minimum(s: FeeSchedule): real {
    match s
    case AlwaysFree => 0.0
    case AlwaysOne => 1.0
    case AvanzaMini => 1.0
    case AvanzaSmall => 39.0
    case AvanzaMedium => 69.0
    case AvanzaFastPris => 99.0
  }

  /** The proportional rate of a schedule; zero for the flat ones. */
  function Rate(s: FeeSchedule): real {
    match s
    case AlwaysFree => 0.0
    case AlwaysOne => 0.0
    case AvanzaMini => 0.0025
    case AvanzaSmall => 0.0015
    case AvanzaMedium => 0.00069
    case AvanzaFastPris => 0.0
  }

  function Max(a: real, b: real): real {
    if a >= b then a else b
  }

  /** Sum of the purchase prices of the given assets. */
  function SumBought(assets: seq<Asset>): real
    decreases |assets|
  {
    if |assets| == 0 then 0.0
    else SumBought(assets[..|assets| - 1]) + assets[|assets| - 1].boughtAt.price
  }

  /** The fee for a given notional value, written once per schedule as the
      corresponding calculator class computes it. */
  function Courtage(s: FeeSchedule, notional: real): real {
    match s
    case AlwaysFree => 0.0
    case AlwaysOne => 1.0
    case AvanzaMini => Max(1.0, notional * 0.0025)
    case AvanzaSmall => Max(39.0, notional * 0.0015)
    case AvanzaMedium => Max(69.0, notional * 0.00069)
    case AvanzaFastPris => 99.0
  }

  /** TransactionCostToBuy: charged on the settlement price times the amount. */
  function BuyCost(s: FeeSchedule, settlement: AssetPrice, amount: int): (r: real)
    ensures r >= Minimum(s)
    ensures r >= Rate(s) * (settlement.price * amount as real)
    ensures r == Minimum(s) || r == Rate(s) * (settlement.price * amount as real)
  {
    var notional := settlement.price * amount as real;
    assert notional * 0.0025 == 0.0025 * notional && notional * 0.0015 == 0.0015 * notional &&
      notional * 0.00069 == 0.00069 * notional;
    Courtage(s, notional)
  }

  /** TransactionCostToSell: charged on the sum of the PURCHASE prices of the
      consigned assets; the sale price plays no part. */
  function SellCost(s: FeeSchedule, assets: seq<Asset>): (r: real)
    ensures r >= Minimum(s)
    ensures r >= Rate(s) * SumBought(assets)
    ensures r == Minimum(s) || r == Rate(s) * SumBought(assets)
  {
    Courtage(s, SumBought(assets))
  }

  /** Every schedule's fee is non-decreasing in the notional value. */
  lemma CourtageMonotone(s: FeeSchedule, n1: real, n2: real)
    requires n1 <= n2
    ensures Courtage(s, n1) <= Courtage(s, n2)
  {
  }

  /** A larger buy (same settlement price, more units) never costs less. */
  lemma BuyCostMonotone(s: FeeSchedule, settlement: AssetPrice, a1: int, a2: int)
    requires settlement.price > 0.0 && a1 <= a2
    ensures BuyCost(s, settlement, a1) <= BuyCost(s, settlement, a2)
  {
    assert settlement.price * a1 as real <= settlement.price * a2 as real;
    CourtageMonotone(s, settlement.price * a1 as real, settlement.price * a2 as real);
  }

  /** Two consignments with the same purchase-price total are charged the same,
      whatever they are sold at; with equal notional a buy and a sell cost the
      same. */
  lemma SellCostIgnoresSalePrice(s: FeeSchedule, a: seq<Asset>, b: seq<Asset>, settlement: AssetPrice, amount: int)
    requires SumBought(a) == SumBought(b)
    requires SumBought(a) == settlement.price * amount as real
    ensures SellCost(s, a) == SellCost(s, b) == BuyCost(s, settlement, amount)
  {
    var n := SumBought(a);
    assert SellCost(s, a) == Courtage(s, n) && SellCost(s, b) == Courtage(s, n);
    assert BuyCost(s, settlement, amount) == Courtage(s, n);
  }

  /** SumBought is additive over concatenation. */
  lemma {:induction false} SumBoughtAppend(a: seq<Asset>, b: seq<Asset>)
    ensures SumBought(a + b) == SumBought(a) + SumBought(b)
    decreases |b|
  {
    if |b| == 0 {
      assert a + b == a;
    } else {
      assert (a + b)[..|a + b| - 1] == a + b[..|b| - 1];
      SumBoughtAppend(a, b[..|b| - 1]);
    }
  }
}
