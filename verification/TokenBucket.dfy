/** The two token-bucket limiters: one per upstream server, one per client address. */
module TokenBucket {
  import opened Names
  import opened Records

  datatype Rate = Rate(qps: real, burst: real)

  datatype Bucket = Bucket(tokens: real, last: int)

  function Seconds(ns: int): real {
    ns as real / 1_000_000_000.0
  }

  function Clamp(r: Rate, tokens: real): real {
    if tokens > r.burst then r.burst else tokens
  }

  /** The client limiter's refill. */
  function Refill(r: Rate, b: Bucket, now: int): Bucket {
    Bucket(Clamp(r, b.tokens + Seconds(now - b.last) * r.qps), now)
  }

  /** The upstream limiter's refill: time that runs backwards adds nothing, and time beyond what
      fills the bucket is cut off before it is multiplied. */
  function CutRefill(r: Rate, b: Bucket, now: int): Bucket {
    var elapsed := Seconds(now - b.last);
    if elapsed <= 0.0 || r.qps <= 0.0 then b
    else
      var most := r.burst / r.qps;
      var e := if elapsed > most then most else elapsed;
      Bucket(Clamp(r, b.tokens + e * r.qps), now)
  }

  predicate Enough(b: Bucket) {
    b.tokens >= 1.0
  }

  function Spent(b: Bucket): Bucket {
    if Enough(b) then b.(tokens := b.tokens - 1.0) else b
  }

  type Refiller = (Rate, Bucket, int) -> Bucket

  // ----- eviction -----

  /** Long enough to fill an empty bucket, to the nanosecond below, and a second more. */
  function IdleFor(r: Rate): int {
    if r.qps <= 0.0 then 0 else (r.burst / r.qps * 1_000_000_000.0).Floor + SECOND
  }

  predicate Idle(r: Rate, b: Bucket, now: int) {
    r.qps > 0.0 && b.last < now - IdleFor(r)
  }

  function Busy<K>(m: map<K, Bucket>, r: Rate, now: int): map<K, Bucket> {
    map k | k in m && !Idle(r, m[k], now) :: m[k]
  }

  ghost predicate Oldest<K(!new)>(m: map<K, Bucket>, k: K) {
    k in m && forall j :: j in m ==> m[k].last <= m[j].last
  }

  /** Idle buckets go; if the map is still full, one that was refilled longest ago goes too. */
  ghost predicate Evicts<K(!new)>(m: map<K, Bucket>, r: Rate, maxKeys: int, now: int, victim: Option<K>, after: map<K, Bucket>) {
    var busy := Busy(m, r, now);
    if maxKeys <= 0 || |busy| < maxKeys then victim == None && after == busy
    else victim.Some? && Oldest(busy, victim.value) && after == busy - {victim.value}
  }

  ghost predicate MakesRoom<K(!new)>(
    m: map<K, Bucket>, r: Rate, maxKeys: int, k: K, now: int, victim: Option<K>, after: map<K, Bucket>)
  {
    if k !in m && maxKeys > 0 && |m| >= maxKeys then Evicts(m, r, maxKeys, now, victim, after)
    else victim == None && after == m
  }

  /** A bucket starts full. */
  function BucketOf<K>(m: map<K, Bucket>, r: Rate, k: K, now: int): Bucket {
    if k in m then m[k] else Bucket(r.burst, now)
  }

  /** One request for `k`: make room if its bucket is new, refill, spend. */
  ghost predicate Admits<K(!new)>(
    refill: Refiller, m: map<K, Bucket>, r: Rate, maxKeys: int, k: K, now: int,
    victim: Option<K>, after: map<K, Bucket>, ok: bool)
  {
    exists room ::
      && MakesRoom(m, r, maxKeys, k, now, victim, room)
      && var b := refill(r, BucketOf(room, r, k, now), now);
      after == room[k := Spent(b)] && ok == Enough(b)
  }

  /** The upstream limiter is one such object; the client limiter is 64 of them, each with its own
      lock and its share of the cap. */
  class Limiter<K(==, !new)> {
    var buckets: map<K, Bucket>
    const rate: Rate
    const maxKeys: int

    constructor (rate: Rate, maxKeys: int)
      ensures buckets == map[] && this.rate == rate && this.maxKeys == maxKeys
    {
      buckets := map[];
      this.rate := rate;
      this.maxKeys := maxKeys;
    }

    method DropIdle(now: int)
      modifies this
      ensures buckets == Busy(old(buckets), rate, now)
    {
      if rate.qps > 0.0 {
        var threshold := now - IdleFor(rate);
        var todo := buckets.Keys;
        while todo != {}
          invariant todo <= old(buckets).Keys
          invariant forall k :: k in todo ==> k in buckets
          invariant forall k :: k in buckets ==> k in old(buckets) && buckets[k] == old(buckets)[k]
          invariant forall k :: k in old(buckets) && k !in todo ==> (k in buckets <==> !Idle(rate, old(buckets)[k], now))
          decreases |todo|
        {
          var k :| k in todo;
          if buckets[k].last < threshold {
            buckets := buckets - {k};
          }
          todo := todo - {k};
        }
      }
      assert buckets == Busy(old(buckets), rate, now);
    }

    method FindOldest() returns (k: K)
      requires buckets != map[]
      ensures Oldest(buckets, k)
    {
      k :| k in buckets;
      var todo := buckets.Keys - {k};
      while todo != {}
        invariant k in buckets && todo <= buckets.Keys
        invariant forall j :: j in buckets && j !in todo ==> buckets[k].last <= buckets[j].last
        decreases |todo|
      {
        var j :| j in todo;
        if buckets[j].last < buckets[k].last {
          k := j;
        }
        todo := todo - {j};
      }
    }

    method Evict(now: int) returns (ghost victim: Option<K>)
      modifies this
      ensures Evicts(old(buckets), rate, maxKeys, now, victim, buckets)
    {
      DropIdle(now);
      victim := None;
      if maxKeys <= 0 || |buckets| < maxKeys {
        return;
      }
      var k := FindOldest();
      victim := Some(k);
      buckets := buckets - {k};
    }

    method MakeRoom(k: K, now: int) returns (ghost victim: Option<K>)
      modifies this
      ensures MakesRoom(old(buckets), rate, maxKeys, k, now, victim, buckets)
    {
      victim := None;
      if k !in buckets && maxKeys > 0 && |buckets| >= maxKeys {
        victim := Evict(now);
      }
    }

    /** Admission to an upstream server; a rate of zero or less admits everything. */
    method Take(k: K, now: int) returns (ok: bool, ghost victim: Option<K>)
      modifies this
      ensures rate.qps <= 0.0 ==> ok && buckets == old(buckets)
      ensures rate.qps > 0.0 ==> Admits(CutRefill, old(buckets), rate, maxKeys, k, now, victim, buckets, ok)
    {
      hide MakesRoom;
      if rate.qps <= 0.0 {
        return true, None;
      }
      victim := MakeRoom(k, now);
      ghost var room := buckets;
      var b := if k in buckets then buckets[k] else Bucket(rate.burst, now);
      var elapsed := Seconds(now - b.last);
      if elapsed > 0.0 {
        var most := rate.burst / rate.qps;
        if elapsed > most {
          elapsed := most;
        }
        var tokens := b.tokens + elapsed * rate.qps;
        if tokens > rate.burst {
          tokens := rate.burst;
        }
        b := Bucket(tokens, now);
      }
      assert b == CutRefill(rate, BucketOf(room, rate, k, now), now);
      ok := b.tokens >= 1.0;
      if ok {
        b := b.(tokens := b.tokens - 1.0);
      }
      buckets := buckets[k := b];
    }

    /** Admission of a client. */
    method Allow(k: K, now: int) returns (ok: bool, ghost victim: Option<K>)
      modifies this
      ensures Admits(Refill, old(buckets), rate, maxKeys, k, now, victim, buckets, ok)
    {
      hide MakesRoom;
      victim := MakeRoom(k, now);
      ghost var room := buckets;
      var b := if k in buckets then buckets[k] else Bucket(rate.burst, now);
      var tokens := b.tokens + Seconds(now - b.last) * rate.qps;
      if tokens > rate.burst {
        tokens := rate.burst;
      }
      b := Bucket(tokens, now);
      assert b == Refill(rate, BucketOf(room, rate, k, now), now);
      ok := b.tokens >= 1.0;
      if ok {
        b := b.(tokens := b.tokens - 1.0);
      }
      buckets := buckets[k := b];
    }
  }
}
