/** Asset types, priced ticks, individual assets and the id counter that mints
    them (VolvasArena/Asset.cs and the records of AssetPriceSimulator.cs). */
module Assets {

  datatype AssetType = AssetType(name: string)

  /** One observed price of an asset type at a tick. */
  datatype AssetPrice = AssetPrice(asset: AssetType, tick: int, price: real)

  /** One unit of an asset; records compare by value, so two assets are equal
      exactly when id, type and purchase price agree. */
  datatype Asset = Asset(id: int, assetType: AssetType, boughtAt: AssetPrice)

  /** The id counter. Each marketplace owns one, so ids are unique per round. */
  datatype AssetFactory = AssetFactory(numCreated: nat)

  /** A factory that has not issued anything yet. */
  function NewFactory(): (f: AssetFactory)
    ensures forall t, p :: GetUniqueAsset(f, t, p).1.id == 0
  {
    AssetFactory(0)
  }

  /** One call of GetUniqueAsset: the current counter becomes the id, and the
      counter moves past it. */
  function GetUniqueAsset(f: AssetFactory, t: AssetType, p: AssetPrice): (r: (AssetFactory, Asset))
    ensures r.1.assetType == t && r.1.boughtAt == p
    ensures f.numCreated <= r.1.id < r.0.numCreated
    ensures r.0.numCreated == f.numCreated + 1
  {
    (AssetFactory(f.numCreated + 1), Asset(f.numCreated, t, p))
  }

  /** Ids strictly increase along the sequence. */
  ghost predicate IdsIncreasing(s: seq<Asset>) {
    forall i, j :: 0 <= i < j < |s| ==> s[i].id < s[j].id
  }

  /** No asset occurs twice. */
  ghost predicate NoDuplicates(s: seq<Asset>) {
    forall i, j :: 0 <= i < j < |s| ==> s[i] != s[j]
  }

  /** r is the subsequence of s at the strictly increasing positions idx. */
  ghost predicate Embedding(r: seq<Asset>, s: seq<Asset>, idx: seq<int>) {
    |idx| == |r| &&
    (forall i :: 0 <= i < |idx| ==> 0 <= idx[i] < |s| && r[i] == s[idx[i]]) &&
    (forall i, j :: 0 <= i < j < |idx| ==> idx[i] < idx[j])
  }

  /** Every id lies in [lo, hi). */
  ghost predicate IdsWithin(s: seq<Asset>, lo: int, hi: int) {
    forall i :: 0 <= i < |s| ==> lo <= s[i].id < hi
  }

  /** A sequence of GetUniqueAsset calls, one per request, threading the
      counter; the k-th call (0-based) returns id `f.numCreated + k`. */
  function GetMany(f: AssetFactory, reqs: seq<(AssetType, AssetPrice)>): (r: (AssetFactory, seq<Asset>))
    ensures |r.1| == |reqs|
    ensures r.0.numCreated == f.numCreated + |reqs|
    ensures forall k :: 0 <= k < |reqs| ==>
      r.1[k] == Asset(f.numCreated + k, reqs[k].0, reqs[k].1)
    decreases |reqs|
  {
    if |reqs| == 0 then (f, [])
    else
      var (f1, a) := GetUniqueAsset(f, reqs[0].0, reqs[0].1);
      var (f2, rest) := GetMany(f1, reqs[1..]);
      (f2, [a] + rest)
  }

  /** From a new factory, the k-th call returns id k, and no id is issued twice. */
  lemma KthCallReturnsK(reqs: seq<(AssetType, AssetPrice)>, k: int)
    requires 0 <= k < |reqs|
    ensures GetMany(NewFactory(), reqs).1[k].id == k
    ensures forall j :: 0 <= j < |reqs| && j != k ==> GetMany(NewFactory(), reqs).1[j].id != k
  {
  }

  /** Minting `amount` assets of one type at one price, as a buy settlement
      does: one batch of fresh ids above everything issued before. */
  function MintBatch(f: AssetFactory, amount: nat, t: AssetType, p: AssetPrice): (r: (AssetFactory, seq<Asset>))
    ensures |r.1| == amount
    ensures r.0.numCreated == f.numCreated + amount
    ensures IdsIncreasing(r.1) && NoDuplicates(r.1)
    ensures IdsWithin(r.1, f.numCreated, r.0.numCreated)
    ensures forall i :: 0 <= i < |r.1| ==> r.1[i].assetType == t && r.1[i].boughtAt == p
    decreases amount
  {
    if amount == 0 then (f, [])
    else
      var (f1, a) := GetUniqueAsset(f, t, p);
      var (f2, rest) := MintBatch(f1, amount - 1, t, p);
      (f2, [a] + rest)
  }

  /** Two consecutive batches from the same factory share no asset. */
  lemma {:induction false} ConsecutiveBatchesDisjoint(f: AssetFactory, n1: nat, n2: nat, t1: AssetType, p1: AssetPrice, t2: AssetType, p2: AssetPrice)
    ensures var (f1, b1) := MintBatch(f, n1, t1, p1);
            var (_, b2) := MintBatch(f1, n2, t2, p2);
            forall i, j :: 0 <= i < |b1| && 0 <= j < |b2| ==> b1[i].id < b2[j].id && b1[i] != b2[j]
  {
    var (f1, b1) := MintBatch(f, n1, t1, p1);
    var (_, b2) := MintBatch(f1, n2, t2, p2);
    assert IdsWithin(b1, f.numCreated, f1.numCreated);
    assert IdsWithin(b2, f1.numCreated, f1.numCreated + n2);
  }
}
