/** What the limiters promise over whole runs. */
module TokenBucketLaws {
  import opened Names
  import opened Records
  import opened TokenBucket
  import opened Shards

  ghost predicate Sane(r: Rate) {
    r.qps >= 0.0 && r.burst >= 0.0
  }

  ghost predicate InRange(r: Rate, b: Bucket) {
    0.0 <= b.tokens <= r.burst
  }

  ghost predicate Good<K(!new)>(m: map<K, Bucket>, r: Rate, t: int) {
    forall k :: k in m ==> InRange(r, m[k]) && m[k].last <= t
  }

  // ----- arithmetic of refilling -----

  lemma MulMonotone(a: real, b: real, c: real)
    requires a <= b && c >= 0.0
    ensures a * c <= b * c
  {
  }

  lemma SecondsAdd(x: int, y: int, q: real)
    ensures Seconds(x + y) * q == Seconds(x) * q + Seconds(y) * q
  {
  }

  lemma Nonnegative(x: int, q: real)
    requires x >= 0 && q >= 0.0
    ensures Seconds(x) * q >= 0.0
  {
    MulMonotone(0.0, Seconds(x), q);
  }

  lemma RefillInRange(r: Rate, b: Bucket, now: int)
    requires Sane(r) && InRange(r, b) && b.last <= now
    ensures InRange(r, Refill(r, b, now)) && Refill(r, b, now).tokens >= b.tokens
  {
    MulMonotone(0.0, Seconds(now - b.last), r.qps);
  }

  lemma FillsUp(r: Rate, elapsed: real)
    requires r.qps > 0.0 && elapsed >= r.burst / r.qps
    ensures elapsed * r.qps >= r.burst
  {
    MulMonotone(r.burst / r.qps, elapsed, r.qps);
    assert r.burst / r.qps * r.qps == r.burst;
  }

  /** Cutting the elapsed time off at burst/qps changes no refill. */
  lemma CutIsExact(r: Rate, b: Bucket, now: int)
    requires r.qps > 0.0 && r.burst >= 0.0 && InRange(r, b) && b.last <= now
    ensures CutRefill(r, b, now) == Refill(r, b, now)
  {
    var elapsed := Seconds(now - b.last);
    if elapsed > r.burst / r.qps {
      FillsUp(r, elapsed);
      FillsUp(r, r.burst / r.qps);
    }
  }

  ghost predicate Full(r: Rate, b: Bucket, t: int) {
    b.tokens + Seconds(t - b.last) * r.qps >= r.burst
  }

  lemma FullStays(r: Rate, b: Bucket, t: int, now: int)
    requires Sane(r) && Full(r, b, t) && t <= now
    ensures Full(r, b, now) && Refill(r, b, now) == Bucket(r.burst, now)
  {
    SecondsAdd(t - b.last, now - t, r.qps);
    MulMonotone(0.0, Seconds(now - t), r.qps);
  }

  /** A bucket idle long enough to be evicted would have been full anyway. */
  lemma IdleIsFull(r: Rate, b: Bucket, now: int)
    requires Idle(r, b, now) && InRange(r, b)
    ensures Full(r, b, now)
  {
    var need := r.burst / r.qps * 1_000_000_000.0;
    assert (now - b.last) as real > need;
    assert Seconds(now - b.last) >= r.burst / r.qps;
    FillsUp(r, Seconds(now - b.last));
  }

  lemma RefillLast(r: Rate, b: Bucket, now: int)
    ensures Refill(r, b, now).last == now
  {
  }

  lemma FreshRefill(r: Rate, now: int)
    ensures Refill(r, Bucket(r.burst, now), now) == Bucket(r.burst, now)
  {
    assert Seconds(0) * r.qps == 0.0;
  }

  // ----- one request -----

  /** What making room does to each key. */
  ghost predicate RoomFor<K(!new)>(m: map<K, Bucket>, r: Rate, now: int, victim: Option<K>, room: map<K, Bucket>) {
    && (forall x :: x in room ==> x in m && room[x] == m[x] && Some(x) != victim)
    && forall x :: x in m && x !in room && Some(x) != victim ==> Idle(r, m[x], now)
  }

  lemma RoomMeaning<K(!new)>(
    m: map<K, Bucket>, r: Rate, maxKeys: int, k: K, now: int, victim: Option<K>, room: map<K, Bucket>)
    requires MakesRoom(m, r, maxKeys, k, now, victim, room)
    ensures RoomFor(m, r, now, victim, room) && (k in room <==> k in m) && (victim.Some? ==> victim.value in m)
    ensures k in m ==> room == m && victim == None
  {
    hide Idle;
  }

  /** A request, by what it does to the buckets. */
  ghost predicate Request<K(!new)>(
    m: map<K, Bucket>, r: Rate, k: K, now: int, victim: Option<K>, room: map<K, Bucket>, after: map<K, Bucket>, ok: bool)
  {
    && RoomFor(m, r, now, victim, room) && (k in room <==> k in m)
    && var b := Refill(r, BucketOf(m, r, k, now), now);
    after == room[k := Spent(b)] && ok == Enough(b)
  }

  lemma AdmitsIsRequest<K(!new)>(
    m: map<K, Bucket>, r: Rate, maxKeys: int, k: K, now: int, victim: Option<K>, after: map<K, Bucket>, ok: bool)
    returns (room: map<K, Bucket>)
    requires Admits(Refill, m, r, maxKeys, k, now, victim, after, ok)
    ensures Request(m, r, k, now, victim, room, after, ok)
  {
    hide MakesRoom, Spent, Enough, RoomFor, Refill;
    room :| MakesRoom(m, r, maxKeys, k, now, victim, room)
            && var b := Refill(r, BucketOf(room, r, k, now), now);
            after == room[k := Spent(b)] && ok == Enough(b);
    RoomMeaning(m, r, maxKeys, k, now, victim, room);
  }

  lemma BucketGood<K(!new)>(m: map<K, Bucket>, r: Rate, k: K, t: int, now: int)
    requires Sane(r) && Good(m, r, t) && t <= now
    ensures InRange(r, BucketOf(m, r, k, now)) && BucketOf(m, r, k, now).last <= now
    ensures InRange(r, Refill(r, BucketOf(m, r, k, now), now))
  {
    hide Refill;
    RefillInRange(r, BucketOf(m, r, k, now), now);
  }

  lemma RequestGood<K(!new)>(
    m: map<K, Bucket>, r: Rate, k: K, t: int, now: int, victim: Option<K>, room: map<K, Bucket>, after: map<K, Bucket>, ok: bool)
    requires Sane(r) && Good(m, r, t) && t <= now && Request(m, r, k, now, victim, room, after, ok)
    ensures Good(after, r, now)
  {
    hide BucketOf, Idle;
    BucketGood(m, r, k, t, now);
  }

  // ----- runs -----

  datatype Req<K> = Req(key: K, now: int)

  datatype Run<!K(!new)> = Run(reqs: seq<Req<K>>, states: seq<map<K, Bucket>>, oks: seq<bool>, victims: seq<Option<K>>)

  /** The clock readings, in the order the lock was taken, do not go back. */
  ghost predicate Monotone<K(!new)>(reqs: seq<Req<K>>) {
    forall i, j :: 0 <= i < j < |reqs| ==> reqs[i].now <= reqs[j].now
  }

  ghost predicate StepOK<K(!new)>(refill: Refiller, r: Rate, maxKeys: int, u: Run<K>, i: nat)
    requires i < |u.reqs| && |u.states| == |u.reqs| + 1 && |u.oks| == |u.victims| == |u.reqs|
  {
    Admits(refill, u.states[i], r, maxKeys, u.reqs[i].key, u.reqs[i].now, u.victims[i], u.states[i + 1], u.oks[i])
  }

  ghost predicate Shaped<K(!new)>(u: Run<K>) {
    && |u.states| == |u.reqs| + 1 && |u.oks| == |u.victims| == |u.reqs|
    && u.states[0] == map[]
  }

  ghost predicate IsRun<K(!new)>(refill: Refiller, r: Rate, maxKeys: int, u: Run<K>) {
    Shaped(u) && forall i :: 0 <= i < |u.reqs| ==> StepOK(refill, r, maxKeys, u, i)
  }

  /** Over any run every bucket holds between zero and `burst` tokens. */
  lemma {:induction false} TokensInRange<K(!new)>(r: Rate, maxKeys: int, u: Run<K>, i: nat, t: int)
    requires Sane(r) && IsRun(Refill, r, maxKeys, u) && Monotone(u.reqs) && i <= |u.reqs| && (i > 0 ==> u.reqs[i - 1].now <= t)
    ensures Good(u.states[i], r, t)
  {
    hide Admits, Refill;
    if i > 0 {
      var q := u.reqs[i - 1];
      if i > 1 {
        assert u.reqs[i - 2].now <= q.now;
      }
      TokensInRange(r, maxKeys, u, i - 1, q.now);
      assert StepOK(Refill, r, maxKeys, u, i - 1);
      var room := AdmitsIsRequest(u.states[i - 1], r, maxKeys, q.key, q.now, u.victims[i - 1], u.states[i], u.oks[i - 1]);
      RequestGood(u.states[i - 1], r, q.key, q.now, q.now, u.victims[i - 1], room, u.states[i], u.oks[i - 1]);
      GoodLater(u.states[i], r, q.now, t);
    }
  }

  lemma GoodLater<K(!new)>(m: map<K, Bucket>, r: Rate, t: int, later: int)
    requires Good(m, r, t) && t <= later
    ensures Good(m, r, later)
  {
  }

  /** Requests of `k` admitted at steps i to j - 1. */
  ghost function Admitted<K(!new)>(u: Run<K>, k: K, i: nat, j: nat): nat
    requires i <= j <= |u.reqs| && |u.oks| == |u.reqs|
    decreases j - i
  {
    if i == j then 0 else Admitted(u, k, i, j - 1) + (if u.reqs[j - 1].key == k && u.oks[j - 1] then 1 else 0)
  }

  // ----- the limiter without idle eviction -----

  /** The reference keeps every bucket it is not told to forget. */
  function Kept<K>(ref: map<K, Bucket>, victim: Option<K>): map<K, Bucket> {
    if victim.Some? then ref - {victim.value} else ref
  }

  function RefBucket<K>(ref: map<K, Bucket>, r: Rate, q: Req<K>): Bucket {
    Refill(r, BucketOf(ref, r, q.key, q.now), q.now)
  }

  function RefStep<K>(ref: map<K, Bucket>, r: Rate, q: Req<K>, victim: Option<K>): map<K, Bucket> {
    Kept(ref, victim)[q.key := Spent(RefBucket(ref, r, q))]
  }

  /** The reference after the first `i` requests of a run, forgetting what the run threw out as
      oldest and nothing else. */
  ghost function RefAfter<K(!new)>(r: Rate, u: Run<K>, i: nat): map<K, Bucket>
    requires i <= |u.reqs| && |u.victims| == |u.reqs|
  {
    if i == 0 then map[] else RefStep(RefAfter(r, u, i - 1), r, u.reqs[i - 1], u.victims[i - 1])
  }

  /** The limiter agrees with the reference, except that it may have dropped full buckets. */
  ghost predicate Agrees<K(!new)>(m: map<K, Bucket>, ref: map<K, Bucket>, r: Rate, t: int) {
    && (forall k :: k in m ==> k in ref && ref[k] == m[k])
    && forall k :: k in ref && k !in m ==> Full(r, ref[k], t)
  }

  /** Whatever bucket the key has, both sides refill it to the same one. */
  lemma SameBucket<K(!new)>(m: map<K, Bucket>, ref: map<K, Bucket>, r: Rate, q: Req<K>, t: int)
    requires Sane(r) && Agrees(m, ref, r, t) && t <= q.now
    ensures Refill(r, BucketOf(m, r, q.key, q.now), q.now) == RefBucket(ref, r, q)
  {
    hide Refill, Full;
    if q.key !in m && q.key in ref {
      FullStays(r, ref[q.key], t, q.now);
      FreshRefill(r, q.now);
    }
  }

  lemma AgreesOther<K(!new)>(
    m: map<K, Bucket>, ref: map<K, Bucket>, r: Rate, t: int, now: int, victim: Option<K>, room: map<K, Bucket>)
    requires Sane(r) && Good(m, r, t) && Agrees(m, ref, r, t) && t <= now && RoomFor(m, r, now, victim, room)
    ensures Agrees(room, Kept(ref, victim), r, now)
  {
    hide Full, Idle;
    forall x | x in Kept(ref, victim) && x !in room
      ensures Full(r, ref[x], now)
    {
      if x in m {
        IdleIsFull(r, m[x], now);
      } else {
        FullStays(r, ref[x], t, now);
      }
    }
  }

  lemma RequestAgrees<K(!new)>(
    m: map<K, Bucket>, ref: map<K, Bucket>, r: Rate, t: int, q: Req<K>,
    victim: Option<K>, room: map<K, Bucket>, after: map<K, Bucket>, ok: bool)
    requires Sane(r) && Good(m, r, t) && Agrees(m, ref, r, t) && t <= q.now
    requires Request(m, r, q.key, q.now, victim, room, after, ok)
    ensures Agrees(after, RefStep(ref, r, q, victim), r, q.now) && ok == Enough(RefBucket(ref, r, q))
  {
    hide Full, Idle, RoomFor, Kept, RefBucket, Refill, BucketOf, Spent, Enough;
    SameBucket(m, ref, r, q, t);
    AgreesOther(m, ref, r, t, q.now, victim, room);
  }

  lemma {:induction false} RunAgrees<K(!new)>(r: Rate, maxKeys: int, u: Run<K>, i: nat, t: int)
    requires Sane(r) && IsRun(Refill, r, maxKeys, u) && Monotone(u.reqs) && i <= |u.reqs| && (i > 0 ==> u.reqs[i - 1].now <= t)
    ensures Agrees(u.states[i], RefAfter(r, u, i), r, t)
    decreases i, 0
  {
    hide Admits, Agrees, Request, RefStep;
    if i == 0 {
      NothingAgrees<K>(r, t);
    } else {
      var q := u.reqs[i - 1];
      StepAgrees(r, maxKeys, u, i - 1);
      AgreesLater(u.states[i], RefAfter(r, u, i), r, q.now, t);
    }
  }

  lemma NothingAgrees<K(!new)>(r: Rate, t: int)
    ensures Agrees<K>(map[], map[], r, t)
  {
  }

  lemma AgreesLater<K(!new)>(m: map<K, Bucket>, ref: map<K, Bucket>, r: Rate, t: int, later: int)
    requires Sane(r) && Agrees(m, ref, r, t) && t <= later
    ensures Agrees(m, ref, r, later)
  {
    hide Full;
    forall k | k in ref && k !in m
      ensures Full(r, ref[k], later)
    {
      FullStays(r, ref[k], t, later);
    }
  }

  /** Dropping idle buckets changes no decision: every request is admitted exactly when the
      reference, which never drops them, admits it. */
  lemma {:induction false} StepAgrees<K(!new)>(r: Rate, maxKeys: int, u: Run<K>, i: nat)
    requires Sane(r) && IsRun(Refill, r, maxKeys, u) && Monotone(u.reqs) && i < |u.reqs|
    ensures u.oks[i] == Enough(RefBucket(RefAfter(r, u, i), r, u.reqs[i]))
    ensures Agrees(u.states[i + 1], RefAfter(r, u, i + 1), r, u.reqs[i].now)
    decreases i, 1
  {
    hide Admits, Agrees, Request, RefStep, Enough, RefBucket;
    var q := u.reqs[i];
    if i > 0 {
      assert u.reqs[i - 1].now <= q.now;
    }
    RunAgrees(r, maxKeys, u, i, q.now);
    TokensInRange(r, maxKeys, u, i, q.now);
    assert StepOK(Refill, r, maxKeys, u, i);
    var room := AdmitsIsRequest(u.states[i], r, maxKeys, q.key, q.now, u.victims[i], u.states[i + 1], u.oks[i]);
    RequestAgrees(u.states[i], RefAfter(r, u, i), r, q.now, q, u.victims[i], room, u.states[i + 1], u.oks[i]);
  }

  // ----- what is dropped -----

  /** A request drops a bucket only if its own key is new and finds the map full; what it drops has been
      idle for longer than it takes to fill and a second, or was refilled no later than all that stay.
      Other buckets are as before. */
  lemma DropsExactly<K(!new)>(
    refill: Refiller, m: map<K, Bucket>, r: Rate, maxKeys: int, k: K, now: int,
    victim: Option<K>, after: map<K, Bucket>, ok: bool, x: K)
    requires Admits(refill, m, r, maxKeys, k, now, victim, after, ok) && x != k
    ensures x in after ==> x in m && after[x] == m[x]
    ensures x in m && x !in after ==>
              && k !in m && maxKeys > 0 && |m| >= maxKeys
              && ((r.qps > 0.0 && m[x].last < now - ((r.burst / r.qps * 1_000_000_000.0).Floor + 1_000_000_000))
                  || forall y :: y in after && y != k ==> m[x].last <= m[y].last)
    ensures victim.Some? ==> victim.value in m && forall y :: y in after && y != k ==> m[victim.value].last <= m[y].last
  {
    var room :| MakesRoom(m, r, maxKeys, k, now, victim, room)
                && var b := refill(r, BucketOf(room, r, k, now), now);
                after == room[k := Spent(b)] && ok == Enough(b);
  }

  // ----- the size of the map -----

  lemma RoomSize<K(!new)>(
    m: map<K, Bucket>, r: Rate, maxKeys: int, k: K, now: int, victim: Option<K>, room: map<K, Bucket>)
    requires MakesRoom(m, r, maxKeys, k, now, victim, room) && maxKeys > 0 && |m| <= maxKeys
    ensures |room| <= maxKeys && (k !in m ==> |room| < maxKeys)
  {
    hide Idle;
    if k !in m && |m| >= maxKeys {
      var busy := Busy(m, r, now);
      KeysSize(busy, m);
      if |busy| >= maxKeys {
        assert busy == room[victim.value := busy[victim.value]];
      }
    }
  }

  lemma AdmitsCapped<K(!new)>(
    refill: Refiller, m: map<K, Bucket>, r: Rate, maxKeys: int, k: K, now: int,
    victim: Option<K>, after: map<K, Bucket>, ok: bool)
    requires Admits(refill, m, r, maxKeys, k, now, victim, after, ok) && maxKeys > 0 && |m| <= maxKeys
    ensures |after| <= maxKeys
  {
    hide MakesRoom, Spent, Enough, BucketOf;
    var room :| MakesRoom(m, r, maxKeys, k, now, victim, room)
                && var b := refill(r, BucketOf(room, r, k, now), now);
                after == room[k := Spent(b)] && ok == Enough(b);
    RoomSize(m, r, maxKeys, k, now, victim, room);
    RoomMeaning(m, r, maxKeys, k, now, victim, room);
    if k in room {
      assert after.Keys == room.Keys;
    }
  }

  /** The map never grows past its cap, whatever the clock does. */
  lemma {:induction false} MapCapped<K(!new)>(refill: Refiller, r: Rate, maxKeys: int, u: Run<K>, i: nat)
    requires IsRun(refill, r, maxKeys, u) && i <= |u.reqs| && maxKeys > 0
    ensures |u.states[i]| <= maxKeys
  {
    hide Admits;
    if i > 0 {
      MapCapped(refill, r, maxKeys, u, i - 1);
      assert StepOK(refill, r, maxKeys, u, i - 1);
      AdmitsCapped(refill, u.states[i - 1], r, maxKeys, u.reqs[i - 1].key, u.reqs[i - 1].now,
                   u.victims[i - 1], u.states[i], u.oks[i - 1]);
    }
  }

  // ----- the upstream limiter -----

  lemma CutAdmits<K(!new)>(
    m: map<K, Bucket>, r: Rate, maxKeys: int, k: K, now: int, victim: Option<K>, after: map<K, Bucket>, ok: bool)
    requires r.qps > 0.0 && r.burst >= 0.0 && Good(m, r, now)
    requires Admits(CutRefill, m, r, maxKeys, k, now, victim, after, ok)
    ensures Admits(Refill, m, r, maxKeys, k, now, victim, after, ok)
  {
    hide MakesRoom, Spent, Enough, Refill, CutRefill;
    var room :| MakesRoom(m, r, maxKeys, k, now, victim, room)
                && var b := CutRefill(r, BucketOf(room, r, k, now), now);
                after == room[k := Spent(b)] && ok == Enough(b);
    RoomMeaning(m, r, maxKeys, k, now, victim, room);
    CutIsExact(r, BucketOf(room, r, k, now), now);
  }

  ghost function Prefix<K(!new)>(u: Run<K>, i: nat): Run<K>
    requires Shaped(u) && i <= |u.reqs|
  {
    Run(u.reqs[..i], u.states[..i + 1], u.oks[..i], u.victims[..i])
  }

  /** A run of the upstream limiter is a run of the plain one, so all of the above holds of it. */
  lemma {:induction false} CutRunIsRun<K(!new)>(r: Rate, maxKeys: int, u: Run<K>, i: nat)
    requires r.qps > 0.0 && r.burst >= 0.0 && IsRun(CutRefill, r, maxKeys, u) && Monotone(u.reqs) && i <= |u.reqs|
    ensures IsRun(Refill, r, maxKeys, Prefix(u, i)) && Monotone(Prefix(u, i).reqs)
    decreases i
  {
    hide Admits;
    if i > 0 {
      CutRunIsRun(r, maxKeys, u, i - 1);
      var p, q := Prefix(u, i - 1), u.reqs[i - 1];
      if i > 1 {
        assert u.reqs[i - 2].now <= q.now;
      }
      TokensInRange(r, maxKeys, p, i - 1, q.now);
      assert StepOK(CutRefill, r, maxKeys, u, i - 1);
      CutAdmits(u.states[i - 1], r, maxKeys, q.key, q.now, u.victims[i - 1], u.states[i], u.oks[i - 1]);
      forall x | 0 <= x < i
        ensures StepOK(Refill, r, maxKeys, Prefix(u, i), x)
      {
        if x < i - 1 {
          assert StepOK(Refill, r, maxKeys, p, x);
        }
      }
    }
  }

  // ----- the pool of shards -----

  /** Sixty-four limiters, wherever each of their runs stands, hold at most n + 63 buckets. */
  lemma PoolCapped<K(!new)>(refill: Refiller, r: Rate, n: int, runs: seq<Run<K>>, stand: seq<nat>)
    requires n > 0 && |runs| == |stand| == SHARDS
    requires forall h :: 0 <= h < SHARDS ==> IsRun(refill, r, PerShard(n), runs[h]) && stand[h] < |runs[h].states|
    ensures Sum(seq(SHARDS, h requires 0 <= h < SHARDS => |runs[h].states[stand[h]]|)) <= n + 63
  {
    hide PerShard, Sum, Admits;
    PerShardRounding(n);
    var sizes := seq(SHARDS, h requires 0 <= h < SHARDS => |runs[h].states[stand[h]]|);
    forall h | 0 <= h < SHARDS
      ensures sizes[h] <= PerShard(n)
    {
      MapCapped(refill, r, PerShard(n), runs[h], stand[h]);
    }
    ShardedTotal(sizes, n);
  }
}
