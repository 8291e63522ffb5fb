/** Exactly when the bound on admissions holds: the condition a caller can see to, and a run that
    exceeds the bound wherever it fails. */
module AdmissionExact {
  import opened Names
  import opened Records
  import opened TokenBucket
  import opened TokenBucketLaws
  import opened AdmissionBound

  // ----- exactly when the bound holds -----

  /** A window of a run over `keys` with readings out of order by at most `skew`. */
  ghost predicate Window<K(!new)>(
    kind: Kind, keys: set<K>, maxKeys: int, skew: nat, r: Rate, u: Run<K>, k: K, i: nat, j: nat, lo: int, hi: int)
  {
    && Fits(kind, r) && IsRun(RefillOf(kind), r, maxKeys, u) && Among(u.reqs, keys) && WithinSkew(u.reqs, skew)
    && i <= j <= |u.reqs| && NotThrown(u, k, i, j) && lo <= hi && ReadWithin(u, k, i, j, lo, hi)
  }

  ghost predicate AlwaysBounded<K(!new)>(kind: Kind, keys: set<K>, maxKeys: int, skew: nat) {
    forall r, u, k, i, j, lo, hi ::
      Window(kind, keys, maxKeys, skew, r, u, k, i, j, lo, hi) ==> Bounded(r, u, k, i, j, lo, hi)
  }

  /** What a caller can see to beforehand: no cap, no more keys than the cap, or readings out of
      order by no more than a second, for clients half a second. */
  predicate Safe<K>(kind: Kind, keys: set<K>, maxKeys: int, skew: nat) {
    maxKeys <= 0 || |keys| <= maxKeys || skew + Debt(kind, skew) <= SECOND
  }

  lemma SafeIsBounded<K(!new)>(
    kind: Kind, keys: set<K>, maxKeys: int, skew: nat, r: Rate, u: Run<K>, k: K, i: nat, j: nat, lo: int, hi: int)
    requires Safe(kind, keys, maxKeys, skew) && Window(kind, keys, maxKeys, skew, r, u, k, i, j, lo, hi)
    ensures Bounded(r, u, k, i, j, lo, hi)
  {
    hide Bounded, ComesBackFull, Among, WithinSkew, NotThrown, ReadWithin, StepOK, RefillOf;
    if maxKeys <= 0 || |keys| <= maxKeys {
      FewKeysStay(RefillOf(kind), r, maxKeys, u, keys, k, i, j);
    } else {
      LittleSkewBackFull(kind, r, maxKeys, u, k, i, j, skew);
    }
    AnyClockBound(kind, r, maxKeys, u, k, i, j, lo, hi);
  }

  // Otherwise: a key spends its bucket and falls idle, other keys fill the map and push it out, and
  // it comes back with a reading at which its old bucket would not have been full.

  ghost function End<K(!new)>(u: Run<K>): map<K, Bucket>
    requires Shaped(u)
  {
    u.states[|u.reqs|]
  }

  ghost function Spends<K(!new)>(u: Run<K>, k: K): nat
    requires Shaped(u)
  {
    Admitted(u, k, 0, |u.reqs|)
  }

  ghost function Append<K(!new)>(u: Run<K>, q: Req<K>, victim: Option<K>, after: map<K, Bucket>, ok: bool): Run<K> {
    Run(u.reqs + [q], u.states + [after], u.oks + [ok], u.victims + [victim])
  }

  lemma {:induction false} AdmittedBefore<K(!new)>(u: Run<K>, q: Req<K>, victim: Option<K>, after: map<K, Bucket>, ok: bool, k: K, j: nat)
    requires Shaped(u) && j <= |u.reqs|
    ensures Admitted(Append(u, q, victim, after, ok), k, 0, j) == Admitted(u, k, 0, j)
  {
    if j > 0 {
      AdmittedBefore(u, q, victim, after, ok, k, j - 1);
    }
  }

  lemma AppendIsRun<K(!new)>(
    refill: Refiller, r: Rate, maxKeys: int, u: Run<K>, q: Req<K>, victim: Option<K>, after: map<K, Bucket>, ok: bool, k: K)
    requires IsRun(refill, r, maxKeys, u) && Admits(refill, End(u), r, maxKeys, q.key, q.now, victim, after, ok)
    ensures var v := Append(u, q, victim, after, ok);
            && IsRun(refill, r, maxKeys, v) && End(v) == after
            && Spends(v, k) == Spends(u, k) + (if q.key == k && ok then 1 else 0)
  {
    hide Admits;
    var v := Append(u, q, victim, after, ok);
    forall i | 0 <= i < |v.reqs|
      ensures StepOK(refill, r, maxKeys, v, i)
    {
      if i < |u.reqs| {
        assert StepOK(refill, r, maxKeys, u, i);
      }
    }
    AdmittedBefore(u, q, victim, after, ok, k, |u.reqs|);
  }

  /** A full bucket of one token, spent at once. */
  lemma FreshSpent(kind: Kind, r: Rate, now: int)
    requires r.burst == 1.0
    ensures var b := RefillOf(kind)(r, Bucket(r.burst, now), now); Spent(b) == Bucket(0.0, now) && Enough(b)
  {
    assert Seconds(0) * r.qps == 0.0;
  }

  lemma Enters<K(!new)>(
    kind: Kind, m: map<K, Bucket>, r: Rate, maxKeys: int, k: K, now: int, victim: Option<K>, room: map<K, Bucket>)
    requires r.burst == 1.0 && k !in m && MakesRoom(m, r, maxKeys, k, now, victim, room) && k !in room
    ensures Admits(RefillOf(kind), m, r, maxKeys, k, now, victim, room[k := Bucket(0.0, now)], true)
  {
    hide MakesRoom, Spent, Enough;
    FreshSpent(kind, r, now);
  }

  lemma Again<K(!new)>(kind: Kind, m: map<K, Bucket>, r: Rate, maxKeys: int, k: K, now: int, b: Bucket)
    requires k in m && b == RefillOf(kind)(r, m[k], now)
    ensures Admits(RefillOf(kind), m, r, maxKeys, k, now, None, m[k := Spent(b)], Enough(b))
  {
    hide Spent, Enough;
    assert MakesRoom(m, r, maxKeys, k, now, None, m);
  }

  /** A bucket of one token that takes the skew to fill, and upstream half a nanosecond more. */
  function SlowRate(kind: Kind, skew: nat): Rate
    requires skew > 0
  {
    Rate(1_000_000_000.0 / FillTime(kind, skew), 1.0)
  }

  function FillTime(kind: Kind, skew: nat): real {
    if kind.Client? then skew as real else skew as real + 0.5
  }

  lemma FillTimeTaken(kind: Kind, skew: nat)
    requires skew > 0
    ensures SlowRate(kind, skew).qps > 0.0 && SlowRate(kind, skew).qps * FillTime(kind, skew) == 1_000_000_000.0
  {
  }

  lemma SlowRateFits(kind: Kind, skew: nat)
    requires skew > 0
    ensures Fits(kind, SlowRate(kind, skew)) && SlowRate(kind, skew).burst == 1.0
    ensures SlowRate(kind, skew).qps > 0.0 && IdleFor(SlowRate(kind, skew)) == skew + SECOND
  {
    hide SlowRate;
    FillTimeTaken(kind, skew);
    SlowBurst(kind, skew);
    FillTimeFloor(SlowRate(kind, skew).qps, FillTime(kind, skew));
    assert FillTime(kind, skew).Floor == skew;
  }

  lemma FillTimeFloor(q: real, f: real)
    requires q > 0.0 && q * f == 1_000_000_000.0
    ensures 1.0 / q * 1_000_000_000.0 == f
  {
    assert 1.0 / q * (q * f) == f;
  }

  /** Tokens that come in over some time, in multiples of the time it takes to fill the bucket. */
  lemma SlowRefill(kind: Kind, skew: nat, ns: int, n: real)
    requires skew > 0
    ensures ns as real <= n * FillTime(kind, skew) ==> Seconds(ns) * SlowRate(kind, skew).qps <= n
    ensures ns as real >= n * FillTime(kind, skew) ==> Seconds(ns) * SlowRate(kind, skew).qps >= n
    ensures ns as real < n * FillTime(kind, skew) ==> Seconds(ns) * SlowRate(kind, skew).qps < n
  {
    hide SlowRate, FillTime;
    FillTimeTaken(kind, skew);
    Proportion(ns as real, SlowRate(kind, skew).qps, FillTime(kind, skew), n);
  }

  lemma Proportion(x: real, q: real, f: real, n: real)
    requires q > 0.0 && q * f == 1_000_000_000.0
    ensures x <= n * f ==> x / 1_000_000_000.0 * q <= n
    ensures x >= n * f ==> x / 1_000_000_000.0 * q >= n
    ensures x < n * f ==> x / 1_000_000_000.0 * q < n
  {
    assert n * f * q == n * 1_000_000_000.0;
    if x <= n * f {
      MulMonotone(x, n * f, q);
    }
    if x >= n * f {
      MulMonotone(n * f, x, q);
    }
    if x < n * f {
      assert x * q < n * f * q;
    }
  }

  /** The requests of the key before it falls idle: one that spends its token, and for clients a second
      one and a late one, which puts the bucket in debt. */
  function Opening<K>(kind: Kind, skew: nat, k: K): seq<Req<K>> {
    if kind.Client? then [Req(k, 0), Req(k, skew), Req(k, 0)] else [Req(k, 0)]
  }

  function Emptied(kind: Kind): Bucket {
    Bucket(if kind.Client? then -1.0 else 0.0, 0)
  }

  ghost predicate NobodyThrown<K(!new)>(u: Run<K>) {
    forall x :: 0 <= x < |u.victims| ==> u.victims[x] == None
  }

  lemma First<K(!new)>(kind: Kind, r: Rate, maxKeys: int, k: K) returns (u: Run<K>)
    requires r.burst == 1.0 && maxKeys > 0
    ensures IsRun(RefillOf(kind), r, maxKeys, u) && u.reqs == [Req(k, 0)] && NobodyThrown(u)
    ensures End(u) == map[k := Bucket(0.0, 0)] && Spends(u, k) == 1
  {
    hide Admits, RefillOf;
    var none: map<K, Bucket> := map[];
    u := Run([], [none], [], []);
    assert MakesRoom(none, r, maxKeys, k, 0, None, none);
    Enters(kind, none, r, maxKeys, k, 0, None, none);
    assert none[k := Bucket(0.0, 0)] == map[k := Bucket(0.0, 0)];
    AppendIsRun(RefillOf(kind), r, maxKeys, u, Req(k, 0), None, none[k := Bucket(0.0, 0)], true, k);
    u := Append(u, Req(k, 0), None, none[k := Bucket(0.0, 0)], true);
  }

  lemma RefillsInSkew(skew: nat)
    requires skew > 0
    ensures var r := SlowRate(Client, skew);
            && Refill(r, Bucket(0.0, 0), skew) == Bucket(1.0, skew)
            && Refill(r, Bucket(0.0, skew), 0) == Bucket(-1.0, 0)
  {
    hide Seconds, SlowRate;
    SlowBurst(Client, skew);
    SlowRefill(Client, skew, skew, 1.0);
    SlowRefill(Client, skew, 0 - skew, -1.0);
  }

  lemma OneMore<K(!new)>(kind: Kind, r: Rate, maxKeys: int, u: Run<K>, k: K, now: int, b: Bucket) returns (v: Run<K>)
    requires IsRun(RefillOf(kind), r, maxKeys, u) && NobodyThrown(u)
    requires k in End(u) && End(u).Keys == {k} && b == RefillOf(kind)(r, End(u)[k], now)
    ensures IsRun(RefillOf(kind), r, maxKeys, v) && NobodyThrown(v) && v.reqs == u.reqs + [Req(k, now)]
    ensures End(v) == map[k := Spent(b)] && Spends(v, k) == Spends(u, k) + (if Enough(b) then 1 else 0)
  {
    hide Admits, Spent, Enough, StepOK;
    Again(kind, End(u), r, maxKeys, k, now, b);
    AppendIsRun(RefillOf(kind), r, maxKeys, u, Req(k, now), None, End(u)[k := Spent(b)], Enough(b), k);
    v := Append(u, Req(k, now), None, End(u)[k := Spent(b)], Enough(b));
  }

  lemma Opened<K(!new)>(kind: Kind, skew: nat, maxKeys: int, k: K) returns (u: Run<K>)
    requires skew > 0 && maxKeys > 0
    ensures IsRun(RefillOf(kind), SlowRate(kind, skew), maxKeys, u) && u.reqs == Opening(kind, skew, k) && NobodyThrown(u)
    ensures End(u) == map[k := Emptied(kind)] && Spends(u, k) == if kind.Client? then 2 else 1
  {
    hide IsRun, NobodyThrown, Refill, Spends, End, SlowRate;
    var r := SlowRate(kind, skew);
    SlowBurst(kind, skew);
    u := First(kind, r, maxKeys, k);
    if kind.Client? {
      RefillsInSkew(skew);
      RunShape(Refill, r, maxKeys, u);
      u := OneMore(kind, r, maxKeys, u, k, skew, Bucket(1.0, skew));
      u := OneMore(kind, r, maxKeys, u, k, 0, Bucket(-1.0, 0));
    }
  }

  lemma SlowBurst(kind: Kind, skew: nat)
    requires skew > 0
    ensures SlowRate(kind, skew).burst == 1.0
  {
  }

  // ----- the other keys -----

  ghost predicate Distinct<K(!new)>(os: seq<K>) {
    forall x, y :: 0 <= x < y < |os| ==> os[x] != os[y]
  }

  lemma {:induction false} Choose<K(!new)>(keys: set<K>, n: nat) returns (os: seq<K>)
    requires n <= |keys|
    ensures |os| == n && Distinct(os) && forall x :: 0 <= x < n ==> os[x] in keys
  {
    os := [];
    if n > 0 {
      var k :| k in keys;
      var rest := Choose(keys - {k}, n - 1);
      os := [k] + rest;
    }
  }

  /** The buckets of the first `i` others. */
  ghost function Crowd<K(!new)>(os: seq<K>, i: nat, t: int): map<K, Bucket>
    requires i <= |os|
  {
    if i == 0 then map[] else Crowd(os, i - 1, t)[os[i - 1] := Bucket(0.0, t)]
  }

  lemma {:induction false} CrowdKeys<K(!new)>(os: seq<K>, i: nat, t: int)
    requires i <= |os|
    ensures forall o :: o in Crowd(os, i, t) <==> o in os[..i]
    ensures forall o :: o in Crowd(os, i, t) ==> Crowd(os, i, t)[o] == Bucket(0.0, t)
  {
    if i > 0 {
      CrowdKeys(os, i - 1, t);
      assert os[..i] == os[..i - 1] + [os[i - 1]];
    }
  }

  lemma CrowdNew<K(!new)>(os: seq<K>, i: nat, t: int)
    requires i < |os| && Distinct(os)
    ensures os[i] !in Crowd(os, i, t)
  {
    CrowdKeys(os, i, t);
  }

  lemma CrowdOthers<K(!new)>(os: seq<K>, i: nat, t: int, k: K)
    requires i <= |os| && k !in os
    ensures k !in Crowd(os, i, t)
  {
    CrowdKeys(os, i, t);
  }

  lemma {:induction false} CrowdSize<K(!new)>(os: seq<K>, i: nat, t: int)
    requires i <= |os| && Distinct(os)
    ensures |Crowd(os, i, t)| == i
  {
    if i > 0 {
      CrowdSize(os, i - 1, t);
      CrowdNew(os, i - 1, t);
    }
  }

  /** Others are not idle at a reading that is not later, and the first key is. */
  lemma CrowdBusy<K(!new)>(os: seq<K>, i: nat, t: int, r: Rate, now: int)
    requires i <= |os| && IdleFor(r) >= 0 && now <= t
    ensures Busy(Crowd(os, i, t), r, now) == Crowd(os, i, t)
  {
    hide IdleFor, Crowd;
    CrowdKeys(os, i, t);
  }

  lemma CrowdOutlasts<K(!new)>(os: seq<K>, i: nat, t: int, r: Rate, k: K, b: Bucket)
    requires i <= |os| && k !in os && IdleFor(r) >= 0 && Idle(r, b, t)
    ensures Busy(Crowd(os, i, t)[k := b], r, t) == Crowd(os, i, t)
  {
    hide IdleFor, Crowd;
    CrowdKeys(os, i, t);
    assert k !in os[..i];
  }

  /** The reading at which the first key is idle. */
  function Late(skew: nat): int {
    skew + SECOND + 1
  }

  function Arrivals<K>(os: seq<K>, i: nat, t: int): seq<Req<K>>
    requires i <= |os|
  {
    seq(i, x requires 0 <= x < i => Req(os[x], t))
  }

  lemma ArrivalsGrow<K>(os: seq<K>, i: nat, t: int)
    requires i < |os|
    ensures Arrivals(os, i + 1, t) == Arrivals(os, i, t) + [Req(os[i], t)]
  {
  }

  /** A run that opened and went on with arrivals of the first `i` others. */
  ghost predicate Filling<K(!new)>(kind: Kind, skew: nat, maxKeys: int, k: K, os: seq<K>, i: nat, u: Run<K>)
    requires skew > 0 && i <= |os|
  {
    && IsRun(RefillOf(kind), SlowRate(kind, skew), maxKeys, u) && NobodyThrown(u)
    && u.reqs == Opening(kind, skew, k) + Arrivals(os, i, Late(skew))
    && Spends(u, k) == if kind.Client? then 2 else 1
  }

  lemma Joins<K(!new)>(
    kind: Kind, skew: nat, maxKeys: int, k: K, os: seq<K>, i: nat, u: Run<K>, room: map<K, Bucket>) returns (v: Run<K>)
    requires skew > 0 && i < |os| && k != os[i] && Filling(kind, skew, maxKeys, k, os, i, u) && os[i] !in End(u) && os[i] !in room
    requires MakesRoom(End(u), SlowRate(kind, skew), maxKeys, os[i], Late(skew), None, room)
    ensures Filling(kind, skew, maxKeys, k, os, i + 1, v) && End(v) == room[os[i] := Bucket(0.0, Late(skew))]
  {
    hide Admits, MakesRoom, StepOK, SlowRate, RefillOf;
    var r, t := SlowRate(kind, skew), Late(skew);
    SlowBurst(kind, skew);
    Enters(kind, End(u), r, maxKeys, os[i], t, None, room);
    var after := room[os[i] := Bucket(0.0, t)];
    AppendIsRun(RefillOf(kind), r, maxKeys, u, Req(os[i], t), None, after, true, k);
    v := Append(u, Req(os[i], t), None, after, true);
    ArrivalsGrow(os, i, t);
  }

  lemma {:induction false} FillsMap<K(!new)>(kind: Kind, skew: nat, maxKeys: int, k: K, os: seq<K>, i: nat) returns (u: Run<K>)
    requires skew > 0 && Distinct(os) && k !in os && |os| == maxKeys && i < maxKeys
    ensures Filling(kind, skew, maxKeys, k, os, i, u) && End(u) == Crowd(os, i, Late(skew))[k := Emptied(kind)]
  {
    hide StepOK, SlowRate, Spends, Distinct;
    var t := Late(skew);
    if i == 0 {
      u := Opened(kind, skew, maxKeys, k);
      assert u.reqs + [] == u.reqs;
      assert Crowd(os, 0, t)[k := Emptied(kind)] == map[k := Emptied(kind)];
    } else {
      u := FillsMap(kind, skew, maxKeys, k, os, i - 1);
      CrowdSize(os, i - 1, t);
      CrowdOthers(os, i - 1, t, k);
      CrowdNew(os, i - 1, t);
      assert MakesRoom(End(u), SlowRate(kind, skew), maxKeys, os[i - 1], t, None, End(u));
      u := Joins(kind, skew, maxKeys, k, os, i - 1, u, End(u));
      Swap(Crowd(os, i - 1, t), k, Emptied(kind), os[i - 1], Bucket(0.0, t));
    }
  }

  lemma Swap<K(!new)>(m: map<K, Bucket>, k: K, b: Bucket, o: K, c: Bucket)
    requires k != o
    ensures m[k := b][o := c] == m[o := c][k := b]
  {
  }

  lemma Overflows<K(!new)>(kind: Kind, skew: nat, maxKeys: int, k: K, os: seq<K>) returns (u: Run<K>)
    requires skew > 0 && Distinct(os) && k !in os && |os| == maxKeys && maxKeys > 0
    ensures Filling(kind, skew, maxKeys, k, os, maxKeys, u) && End(u) == Crowd(os, maxKeys, Late(skew))
  {
    hide StepOK, SlowRate, Spends, IdleFor, Distinct, Busy;
    var t, i, r := Late(skew), maxKeys - 1, SlowRate(kind, skew);
    u := FillsMap(kind, skew, maxKeys, k, os, i);
    CrowdSize(os, i, t);
    CrowdOthers(os, i, t, k);
    CrowdNew(os, i, t);
    SlowRateFits(kind, skew);
    CrowdOutlasts(os, i, t, r, k, Emptied(kind));
    assert MakesRoom(End(u), r, maxKeys, os[i], t, None, Crowd(os, i, t));
    u := Joins(kind, skew, maxKeys, k, os, i, u, Crowd(os, i, t));
  }

  lemma FirstIsOldest<K(!new)>(os: seq<K>, t: int)
    requires os != []
    ensures Oldest(Crowd(os, |os|, t), os[0])
  {
    CrowdKeys(os, |os|, t);
    assert os[..|os|] == os;
  }

  /** The key comes back with a reading as old as the skew allows. */
  lemma Returns<K(!new)>(kind: Kind, skew: nat, maxKeys: int, k: K, os: seq<K>) returns (u: Run<K>)
    requires skew > 0 && Distinct(os) && k !in os && |os| == maxKeys && maxKeys > 0
    ensures IsRun(RefillOf(kind), SlowRate(kind, skew), maxKeys, u) && NotThrown(u, k, 0, |u.reqs|)
    ensures u.reqs == Opening(kind, skew, k) + Arrivals(os, maxKeys, Late(skew)) + [Req(k, SECOND + 1)]
    ensures Spends(u, k) == if kind.Client? then 3 else 2
  {
    hide StepOK, SlowRate, Admitted, IdleFor, RefillOf, Distinct, Busy, Oldest, Crowd;
    var t, r := Late(skew), SlowRate(kind, skew);
    u := Overflows(kind, skew, maxKeys, k, os);
    SlowRateFits(kind, skew);
    CrowdSize(os, maxKeys, t);
    CrowdOthers(os, maxKeys, t, k);
    CrowdBusy(os, maxKeys, t, r, SECOND + 1);
    FirstIsOldest(os, t);
    var m := Crowd(os, maxKeys, t);
    assert MakesRoom(m, r, maxKeys, k, SECOND + 1, Some(os[0]), m - {os[0]});
    Enters(kind, m, r, maxKeys, k, SECOND + 1, Some(os[0]), m - {os[0]});
    var after := (m - {os[0]})[k := Bucket(0.0, SECOND + 1)];
    AppendIsRun(RefillOf(kind), r, maxKeys, u, Req(k, SECOND + 1), Some(os[0]), after, true, k);
    u := Append(u, Req(k, SECOND + 1), Some(os[0]), after, true);
  }

  lemma ReturnsInOrder<K(!new)>(kind: Kind, skew: nat, k: K, os: seq<K>, keys: set<K>)
    requires k in keys && forall x :: 0 <= x < |os| ==> os[x] in keys
    ensures var reqs := Opening(kind, skew, k) + Arrivals(os, |os|, Late(skew)) + [Req(k, SECOND + 1)];
            WithinSkew(reqs, skew) && Among(reqs, keys)
  {
  }

  lemma ReturnsTooSoon(kind: Kind, skew: nat)
    requires skew > 0 && skew + Debt(kind, skew) > SECOND
    ensures var r, hi := SlowRate(kind, skew), if kind.Client? && skew > SECOND then skew else SECOND + 1;
            r.burst + Seconds(hi) * r.qps < if kind.Client? then 3.0 else 2.0
  {
    hide SlowRate, Seconds;
    SlowBurst(kind, skew);
    var hi := if kind.Client? && skew > SECOND then skew else SECOND + 1;
    SlowRefill(kind, skew, hi, if kind.Client? then 2.0 else 1.0);
  }

  lemma UnsafeExceeds<K(!new)>(kind: Kind, keys: set<K>, maxKeys: int, skew: nat) returns (r: Rate, u: Run<K>, k: K, hi: int)
    requires !Safe(kind, keys, maxKeys, skew)
    ensures Window(kind, keys, maxKeys, skew, r, u, k, 0, |u.reqs|, 0, hi) && !Bounded(r, u, k, 0, |u.reqs|, 0, hi)
  {
    hide IsRun, SlowRate, Admitted, Seconds, Arrivals, Fits;
    var all := Choose(keys, maxKeys + 1);
    k := all[0];
    var os := all[1..];
    r := SlowRate(kind, skew);
    u := Returns(kind, skew, maxKeys, k, os);
    hi := if kind.Client? && skew > SECOND then skew else SECOND + 1;
    RunShape(RefillOf(kind), r, maxKeys, u);
    SlowRateFits(kind, skew);
    ReturnsInOrder(kind, skew, k, os, keys);
    ReturnsTooSoon(kind, skew);
    ReturnsReads(kind, skew, k, os, u);
  }

  lemma ReturnsReads<K(!new)>(kind: Kind, skew: nat, k: K, os: seq<K>, u: Run<K>)
    requires k !in os && u.reqs == Opening(kind, skew, k) + Arrivals(os, |os|, Late(skew)) + [Req(k, SECOND + 1)]
    ensures ReadWithin(u, k, 0, |u.reqs|, 0, if kind.Client? && skew > SECOND then skew else SECOND + 1)
  {
  }

  /** The bound holds in every window of every run, at every rate, if and only if the map has room
      for every key or the readings are out of order by no more than the idle second allows. */
  lemma BoundExactly<K(!new)>(kind: Kind, keys: set<K>, maxKeys: int, skew: nat)
    ensures AlwaysBounded(kind, keys, maxKeys, skew) <==> Safe(kind, keys, maxKeys, skew)
  {
    hide Window, Bounded, Safe;
    if Safe(kind, keys, maxKeys, skew) {
      forall r, u, k, i, j, lo, hi | Window(kind, keys, maxKeys, skew, r, u, k, i, j, lo, hi)
        ensures Bounded(r, u, k, i, j, lo, hi)
      {
        SafeIsBounded(kind, keys, maxKeys, skew, r, u, k, i, j, lo, hi);
      }
    } else {
      var r, u, k, hi := UnsafeExceeds(kind, keys, maxKeys, skew);
    }
  }

  // ----- one such run -----

  const ONE_A_SECOND := Rate(1.0, 1.0)
  const STALE_REQUESTS := [Req(0, 0), Req(1, 3 * SECOND), Req(0, 0), Req(0, SECOND), Req(0, 2 * SECOND), Req(0, 3 * SECOND)]

  ghost const STALE_RUN := Run(
    STALE_REQUESTS,
    [map[], map[0 := Bucket(0.0, 0)], map[1 := Bucket(0.0, 3 * SECOND)], map[0 := Bucket(0.0, 0)],
     map[0 := Bucket(0.0, SECOND)], map[0 := Bucket(0.0, 2 * SECOND)], map[0 := Bucket(0.0, 3 * SECOND)]],
    [true, true, true, true, true, true],
    [None, None, Some(1), None, None, None])

  lemma StaleStarts()
    ensures Admits(Refill, map[], ONE_A_SECOND, 1, 0, 0, None, map[0 := Bucket(0.0, 0)], true)
  {
    var none: map<int, Bucket> := map[];
    assert MakesRoom(none, ONE_A_SECOND, 1, 0, 0, None, none);
    assert Seconds(0) * 1.0 == 0.0;
  }

  lemma StaleDropsIdle()
    ensures Admits(Refill, map[0 := Bucket(0.0, 0)], ONE_A_SECOND, 1, 1, 3 * SECOND, None, map[1 := Bucket(0.0, 3 * SECOND)], true)
  {
    var none: map<int, Bucket> := map[];
    assert IdleFor(ONE_A_SECOND) == 2 * SECOND;
    assert Busy(map[0 := Bucket(0.0, 0)], ONE_A_SECOND, 3 * SECOND) == none;
    assert MakesRoom(map[0 := Bucket(0.0, 0)], ONE_A_SECOND, 1, 1, 3 * SECOND, None, none);
    assert Seconds(0) * 1.0 == 0.0;
    assert none[1 := Bucket(0.0, 3 * SECOND)] == map[1 := Bucket(0.0, 3 * SECOND)];
  }

  lemma StaleComesBack()
    ensures Admits(Refill, map[1 := Bucket(0.0, 3 * SECOND)], ONE_A_SECOND, 1, 0, 0, Some(1), map[0 := Bucket(0.0, 0)], true)
  {
    var m, none: map<int, Bucket> := map[1 := Bucket(0.0, 3 * SECOND)], map[];
    assert Busy(m, ONE_A_SECOND, 0) == m;
    assert Oldest(m, 1) && m - {1} == none;
    assert MakesRoom(m, ONE_A_SECOND, 1, 0, 0, Some(1), none);
    assert Seconds(0) * 1.0 == 0.0;
    assert none[0 := Bucket(0.0, 0)] == map[0 := Bucket(0.0, 0)];
  }

  lemma StaleGoesOn(t: int)
    ensures Admits(Refill, map[0 := Bucket(0.0, t)], ONE_A_SECOND, 1, 0, t + SECOND, None, map[0 := Bucket(0.0, t + SECOND)], true)
  {
    var m := map[0 := Bucket(0.0, t)];
    assert MakesRoom(m, ONE_A_SECOND, 1, 0, t + SECOND, None, m);
    assert Seconds(SECOND) * 1.0 == 1.0;
    assert m[0 := Bucket(0.0, t + SECOND)] == map[0 := Bucket(0.0, t + SECOND)];
  }

  /** Five requests admitted where burst and rate allow four. */
  lemma StaleReadingExceeds()
    ensures IsRun(Refill, ONE_A_SECOND, 1, STALE_RUN) && Some(0) !in STALE_RUN.victims
    ensures forall x :: 0 <= x < 6 ==> 0 <= STALE_RUN.reqs[x].now <= 3 * SECOND
    ensures Admitted(STALE_RUN, 0, 0, 6) == 5 && ONE_A_SECOND.burst + Seconds(3 * SECOND) * ONE_A_SECOND.qps == 4.0
  {
    hide Admits;
    StaleStarts();
    StaleDropsIdle();
    StaleComesBack();
    StaleGoesOn(0);
    StaleGoesOn(SECOND);
    StaleGoesOn(2 * SECOND);
    forall x | 0 <= x < 6
      ensures StepOK(Refill, ONE_A_SECOND, 1, STALE_RUN, x)
    {
    }
    assert Admitted(STALE_RUN, 0, 0, 2) == 1;
    assert Admitted(STALE_RUN, 0, 0, 4) == 3;
  }
}
