/** State striped over 64 independently locked shards, with the cap divided among them. */
module Shards {
  const SHARDS: nat := 64

  /** The cap of one shard: the total divided and rounded up, or none. */
  function PerShard(n: int): nat {
    if n <= 0 then 0 else (n + SHARDS - 1) / SHARDS
  }

  lemma PerShardRounding(n: int)
    requires n > 0
    ensures 0 < PerShard(n) && SHARDS * PerShard(n) <= n + SHARDS - 1
  {
  }

  function Sum(sizes: seq<nat>): nat {
    if sizes == [] then 0 else sizes[0] + Sum(sizes[1..])
  }

  lemma {:induction false} SumBound(sizes: seq<nat>, cap: nat)
    requires forall h :: 0 <= h < |sizes| ==> sizes[h] <= cap
    ensures Sum(sizes) <= |sizes| * cap
  {
    if sizes != [] {
      SumBound(sizes[1..], cap);
      assert |sizes| * cap == cap + (|sizes| - 1) * cap;
    }
  }

  /** Shards that keep to their caps keep the total within 63 of the configured one. */
  lemma ShardedTotal(sizes: seq<nat>, n: int)
    requires n > 0 && |sizes| == SHARDS && forall h :: 0 <= h < SHARDS ==> sizes[h] <= PerShard(n)
    ensures Sum(sizes) <= n + 63
  {
    hide PerShard;
    PerShardRounding(n);
    SumBound(sizes, PerShard(n));
  }
}
