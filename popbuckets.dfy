/** `filterFunction` of the city map and the six population buckets drawn with it. */
module PopulationBuckets {
  import opened Results

  /** JavaScript truthiness of the optional upper bound: an absent bound and 0 are falsy. */
  predicate Truthy(v: Option<real>)
  {
    v.Some? && v.value != 0.0
  }

  /**
   * `filterFunction(val1, val2)`: the half-open interval from `val1` to `val2` when `val2` is
   * truthy, and everything from `val1` up otherwise.
   */
  function FilterFunction(val1: real, val2: Option<real>): (f: real -> bool)
    ensures forall x :: f(x) <==> val1 <= x && (Truthy(val2) ==> x < val2.value)
  {
    if Truthy(val2) then x => val1 <= x && x < val2.value else x => val1 <= x
  }

  /** The (lower, upper) bounds of the six series of the map, smallest cities first. */
  const Buckets: seq<(real, Option<real>)> := [
    (100000.0, Some(200000.0)),
    (200000.0, Some(300000.0)),
    (300000.0, Some(400000.0)),
    (400000.0, Some(500000.0)),
    (500000.0, Some(1000000.0)),
    (1000000.0, None)]

  function InBucket(k: nat, x: real): bool
    requires k < |Buckets|
  {
    FilterFunction(Buckets[k].0, Buckets[k].1)(x)
  }

  /** The bucket a population falls in, read off the thresholds; -1 below the smallest. */
  function BucketIndex(x: real): (k: int)
    ensures -1 <= k < |Buckets|
  {
    if x < 100000.0 then -1
    else if x < 200000.0 then 0
    else if x < 300000.0 then 1
    else if x < 400000.0 then 2
    else if x < 500000.0 then 3
    else if x < 1000000.0 then 4
    else 5
  }

  /** A population lies in bucket `k` exactly when `k` is its bucket by the thresholds. */
  lemma BucketMembership(k: nat, x: real)
    requires k < |Buckets|
    ensures InBucket(k, x) <==> k == BucketIndex(x)
  {
    assert Truthy(Buckets[k].1) <==> k < 5;
  }

  /** No population lies in two buckets. */
  lemma BucketsDisjoint(i: nat, j: nat, x: real)
    requires i < j < |Buckets|
    ensures !(InBucket(i, x) && InBucket(j, x))
  {
    BucketMembership(i, x);
    BucketMembership(j, x);
  }

  /** The buckets together hold exactly the populations of at least 100000. */
  lemma BucketsCover(x: real)
    ensures (exists k: nat :: k < |Buckets| && InBucket(k, x)) <==> x >= 100000.0
  {
    if x >= 100000.0 {
      var k := BucketIndex(x);
      BucketMembership(k, x);
    } else {
      forall k: nat | k < |Buckets| ensures !InBucket(k, x) {
        BucketMembership(k, x);
      }
    }
  }
}
