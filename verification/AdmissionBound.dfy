/** How many requests of one key the limiters admit, with clock readings that come in any order. */
module AdmissionBound {
  import opened Names
  import opened Records
  import opened TokenBucket
  import opened TokenBucketLaws
  import opened LimiterClocks

  // ----- what the two refills have in common -----

  datatype Kind = Client | Upstream

  function RefillOf(kind: Kind): Refiller {
    if kind.Client? then Refill else CutRefill
  }

  /** A rate the limiter works with; upstream a rate of zero turns it off. */
  ghost predicate Fits(kind: Kind, r: Rate) {
    Sane(r) && (kind.Upstream? ==> r.qps > 0.0)
  }

  /** What both refills have in common: never more than `burst`, never more than the rate allows for
      the time the stamp moved, and the stamp moves to the clock or stays ahead of it. */
  ghost predicate Law(refill: Refiller, r: Rate, b: Bucket, now: int) {
    var c := refill(r, b, now);
    && c.tokens <= r.burst && c.tokens <= b.tokens + Seconds(c.last - b.last) * r.qps
    && (c.last == now || (c.last == b.last && now <= b.last))
  }

  ghost predicate Lawful(refill: Refiller, r: Rate) {
    forall b: Bucket, now: int :: b.tokens <= r.burst ==> Law(refill, r, b, now)
  }

  lemma RefillLawful(r: Rate)
    ensures Lawful(Refill, r)
  {
  }

  lemma CutLaw(r: Rate, b: Bucket, now: int)
    requires r.qps > 0.0 && r.burst >= 0.0 && b.tokens <= r.burst
    ensures Law(CutRefill, r, b, now)
  {
    var elapsed := Seconds(now - b.last);
    assert Seconds(0) * r.qps == 0.0;
    if elapsed > 0.0 {
      var most := r.burst / r.qps;
      var e := if elapsed > most then most else elapsed;
      MulMonotone(e, elapsed, r.qps);
    }
  }

  lemma CutLawful(r: Rate)
    requires r.qps > 0.0 && r.burst >= 0.0
    ensures Lawful(CutRefill, r)
  {
    hide Law, CutRefill;
    forall b: Bucket, now: int | b.tokens <= r.burst
      ensures Law(CutRefill, r, b, now)
    {
      CutLaw(r, b, now);
    }
  }

  lemma KindLawful(kind: Kind, r: Rate)
    requires Fits(kind, r)
    ensures Lawful(RefillOf(kind), r)
  {
    hide Lawful;
    if kind.Client? {
      RefillLawful(r);
    } else {
      CutLawful(r);
    }
  }

  // ----- the account of a key -----

  ghost predicate AtMostBurst<K(!new)>(m: map<K, Bucket>, r: Rate) {
    forall k :: k in m ==> m[k].tokens <= r.burst
  }

  /** A request, by what it does to one key that is not thrown out. */
  ghost predicate KeyStep<K(!new)>(
    refill: Refiller, m: map<K, Bucket>, r: Rate, q: Req<K>, after: map<K, Bucket>, ok: bool, k: K)
  {
    if q.key == k then
      var b := refill(r, BucketOf(m, r, k, q.now), q.now);
      k in after && after[k] == Spent(b) && ok == Enough(b)
    else k in after ==> k in m && after[k] == m[k]
  }

  lemma AdmitsKeyStep<K(!new)>(
    refill: Refiller, m: map<K, Bucket>, r: Rate, maxKeys: int, q: Req<K>, victim: Option<K>, after: map<K, Bucket>, ok: bool, k: K)
    requires Admits(refill, m, r, maxKeys, q.key, q.now, victim, after, ok)
    ensures KeyStep(refill, m, r, q, after, ok, k)
  {
    hide MakesRoom, Spent, Enough;
    var room :| MakesRoom(m, r, maxKeys, q.key, q.now, victim, room)
                && var b := refill(r, BucketOf(room, r, q.key, q.now), q.now);
                after == room[q.key := Spent(b)] && ok == Enough(b);
    RoomMeaning(m, r, maxKeys, q.key, q.now, victim, room);
  }

  lemma {:induction false} RunAtMostBurst<K(!new)>(refill: Refiller, r: Rate, maxKeys: int, u: Run<K>, i: nat)
    requires Sane(r) && Lawful(refill, r) && IsRun(refill, r, maxKeys, u) && i <= |u.reqs|
    ensures AtMostBurst(u.states[i], r)
  {
    hide Admits, Seconds, Enough;
    if i > 0 {
      RunAtMostBurst(refill, r, maxKeys, u, i - 1);
      var m, q, after := u.states[i - 1], u.reqs[i - 1], u.states[i];
      assert StepOK(refill, r, maxKeys, u, i - 1);
      forall k | k in after
        ensures after[k].tokens <= r.burst
      {
        AdmitsKeyStep(refill, m, r, maxKeys, q, u.victims[i - 1], after, u.oks[i - 1], k);
        if q.key == k {
          assert Law(refill, r, BucketOf(m, r, k, q.now), q.now);
        }
      }
    }
  }

  /** The account of a key from its first request of the window on, stamped `start`: what it spent and
      still has is covered by a full bucket and the time since; it never spent more than that of the
      whole window. */
  ghost predicate Account(r: Rate, b: Bucket, start: int, spent: nat, lo: int, hi: int) {
    && lo <= start && (b.last <= hi || b.last <= start)
    && spent as real + b.tokens <= r.burst + Seconds(b.last - start) * r.qps
    && spent as real <= r.burst + Seconds(hi - lo) * r.qps
  }

  lemma WindowCovers(r: Rate, last: int, start: int, lo: int, hi: int)
    requires Sane(r) && lo <= start && lo <= hi && (last <= hi || last <= start)
    ensures Seconds(last - start) * r.qps <= Seconds(hi - lo) * r.qps
  {
    assert Seconds(last - start) <= Seconds(hi - lo);
    MulMonotone(Seconds(last - start), Seconds(hi - lo), r.qps);
  }

  lemma AccountOpens(refill: Refiller, r: Rate, b: Bucket, now: int, lo: int, hi: int)
    requires Sane(r) && b.tokens <= r.burst && Law(refill, r, b, now) && lo <= now <= hi
    ensures var c := refill(r, b, now); Account(r, Spent(c), c.last, if Enough(c) then 1 else 0, lo, hi)
  {
    var c := refill(r, b, now);
    assert Seconds(0) * r.qps == 0.0;
    Nonnegative(hi - lo, r.qps);
  }

  lemma AccountGoesOn(refill: Refiller, r: Rate, b: Bucket, start: int, spent: nat, now: int, lo: int, hi: int)
    requires Sane(r) && Account(r, b, start, spent, lo, hi) && Law(refill, r, b, now) && lo <= now <= hi
    ensures var c := refill(r, b, now); Account(r, Spent(c), start, spent + (if Enough(c) then 1 else 0), lo, hi)
  {
    hide Seconds;
    var c := refill(r, b, now);
    SecondsAdd(b.last - start, c.last - b.last, r.qps);
    WindowCovers(r, c.last, start, lo, hi);
  }

  /** A bucket that would be full by now may as well be a new one. */
  lemma AccountRenewed(r: Rate, b: Bucket, start: int, spent: nat, now: int, lo: int, hi: int)
    requires Sane(r) && Account(r, b, start, spent, lo, hi) && Full(r, b, now) && now <= hi
    ensures Account(r, Bucket(r.burst, now), start, spent, lo, hi)
  {
    hide Seconds;
    SecondsAdd(b.last - start, now - b.last, r.qps);
  }

  ghost predicate Requested<K(!new)>(u: Run<K>, k: K, i: nat, j: nat) {
    exists x :: i <= x < j <= |u.reqs| && u.reqs[x].key == k
  }

  /** The bucket `k` had when the map last held it. */
  ghost function Held<K(!new)>(u: Run<K>, k: K, x: nat): Option<Bucket>
    requires x < |u.states|
  {
    if k in u.states[x] then Some(u.states[x][k]) else if x == 0 then None else Held(u, k, x - 1)
  }

  /** Whenever `k` comes back in the window, the bucket it lost there would be full by then. */
  ghost predicate ComesBackFull<K(!new)>(r: Rate, u: Run<K>, k: K, i: nat, j: nat)
    requires |u.states| == |u.reqs| + 1
  {
    forall x :: i <= x < j && x < |u.reqs| && u.reqs[x].key == k && k !in u.states[x] && Requested(u, k, i, x) && Held(u, k, x).Some?
      ==> Full(r, Held(u, k, x).value, u.reqs[x].now)
  }

  /** The readings of the requests for `k` in the window. */
  ghost predicate ReadWithin<K(!new)>(u: Run<K>, k: K, i: nat, j: nat, lo: int, hi: int) {
    forall x :: i <= x < j && x < |u.reqs| && u.reqs[x].key == k ==> lo <= u.reqs[x].now <= hi
  }

  lemma {:induction false} NotRequested<K(!new)>(u: Run<K>, k: K, i: nat, j: nat)
    requires i <= j <= |u.reqs| && |u.oks| == |u.reqs| && !Requested(u, k, i, j)
    ensures Admitted(u, k, i, j) == 0
    decreases j
  {
    if i < j {
      assert u.reqs[j - 1].key != k;
      assert !Requested(u, k, i, j - 1);
      NotRequested(u, k, i, j - 1);
    }
  }

  lemma {:induction false} RunAccount<K(!new)>(
    refill: Refiller, r: Rate, maxKeys: int, u: Run<K>, k: K, i: nat, j: nat, lo: int, hi: int) returns (start: int)
    requires Sane(r) && Lawful(refill, r) && IsRun(refill, r, maxKeys, u) && i <= j <= |u.reqs|
    requires ComesBackFull(r, u, k, i, j) && ReadWithin(u, k, i, j, lo, hi)
    ensures Requested(u, k, i, j) ==>
              Held(u, k, j).Some? && Account(r, Held(u, k, j).value, start, Admitted(u, k, i, j), lo, hi)
    decreases j
  {
    hide Admits, Seconds, Law, Account, Enough, Spent, Full;
    start := 0;
    if i < j {
      start := RunAccount(refill, r, maxKeys, u, k, i, j - 1, lo, hi);
      var m, q := u.states[j - 1], u.reqs[j - 1];
      assert StepOK(refill, r, maxKeys, u, j - 1);
      AdmitsKeyStep(refill, m, r, maxKeys, q, u.victims[j - 1], u.states[j], u.oks[j - 1], k);
      RunAtMostBurst(refill, r, maxKeys, u, j - 1);
      if q.key == k {
        var b := BucketOf(m, r, k, q.now);
        assert Law(refill, r, b, q.now);
        if Requested(u, k, i, j - 1) {
          if k !in m {
            AccountRenewed(r, Held(u, k, j - 1).value, start, Admitted(u, k, i, j - 1), q.now, lo, hi);
          }
          AccountGoesOn(refill, r, b, start, Admitted(u, k, i, j - 1), q.now, lo, hi);
        } else {
          NotRequested(u, k, i, j - 1);
          AccountOpens(refill, r, b, q.now, lo, hi);
          start := refill(r, b, q.now).last;
        }
      } else if Requested(u, k, i, j) {
        assert Requested(u, k, i, j - 1);
      }
    }
  }

  /** At most burst + qps * length. */
  ghost predicate Bounded<K(!new)>(r: Rate, u: Run<K>, k: K, i: nat, j: nat, lo: int, hi: int) {
    i <= j <= |u.reqs| == |u.oks| && Admitted(u, k, i, j) as real <= r.burst + Seconds(hi - lo) * r.qps
  }

  /** With clock readings in any order, as requests that read the clock before they wait for the
      lock produce them: at most burst + qps * (latest - earliest) requests of a key are admitted,
      provided a bucket it lost would always be full when the key comes back. */
  lemma AnyClockBound<K(!new)>(kind: Kind, r: Rate, maxKeys: int, u: Run<K>, k: K, i: nat, j: nat, lo: int, hi: int)
    requires Fits(kind, r) && IsRun(RefillOf(kind), r, maxKeys, u) && i <= j <= |u.reqs|
    requires ComesBackFull(r, u, k, i, j) && lo <= hi && ReadWithin(u, k, i, j, lo, hi)
    ensures Bounded(r, u, k, i, j, lo, hi)
  {
    hide IsRun, Lawful, Seconds, ComesBackFull, ReadWithin, RefillOf;
    KindLawful(kind, r);
    RunShape(RefillOf(kind), r, maxKeys, u);
    if Requested(u, k, i, j) {
      var start := RunAccount(RefillOf(kind), r, maxKeys, u, k, i, j, lo, hi);
    } else {
      NotRequested(u, k, i, j);
      Nonnegative(hi - lo, r.qps);
    }
  }

  lemma RunShape<K(!new)>(refill: Refiller, r: Rate, maxKeys: int, u: Run<K>)
    requires IsRun(refill, r, maxKeys, u)
    ensures |u.oks| == |u.victims| == |u.reqs| && |u.states| == |u.reqs| + 1
  {
  }

  // ----- keys that fit in the map -----

  ghost predicate Among<K(!new)>(reqs: seq<Req<K>>, keys: set<K>) {
    forall x :: 0 <= x < |reqs| ==> reqs[x].key in keys
  }

  lemma {:induction false} HeldAmong<K(!new)>(refill: Refiller, r: Rate, maxKeys: int, u: Run<K>, keys: set<K>, i: nat)
    requires IsRun(refill, r, maxKeys, u) && Among(u.reqs, keys) && i <= |u.reqs|
    ensures u.states[i].Keys <= keys
  {
    hide Admits;
    if i > 0 {
      HeldAmong(refill, r, maxKeys, u, keys, i - 1);
      var m, q := u.states[i - 1], u.reqs[i - 1];
      assert StepOK(refill, r, maxKeys, u, i - 1);
      forall k | k in u.states[i]
        ensures k in keys
      {
        AdmitsKeyStep(refill, m, r, maxKeys, q, u.victims[i - 1], u.states[i], u.oks[i - 1], k);
      }
    }
  }

  /** There is room for every key, so nothing is dropped. */
  lemma RoomForAll<K(!new)>(
    refill: Refiller, m: map<K, Bucket>, r: Rate, maxKeys: int, q: Req<K>, victim: Option<K>, after: map<K, Bucket>, ok: bool,
    keys: set<K>)
    requires Admits(refill, m, r, maxKeys, q.key, q.now, victim, after, ok)
    requires m.Keys <= keys && q.key in keys && (maxKeys <= 0 || |keys| <= maxKeys)
    ensures forall k :: k in m ==> k in after
  {
    hide Evicts, Spent, Enough;
    if q.key !in m {
      SubsetSize(m.Keys + {q.key}, keys);
    }
    var room :| MakesRoom(m, r, maxKeys, q.key, q.now, victim, room)
                && var b := refill(r, BucketOf(room, r, q.key, q.now), q.now);
                after == room[q.key := Spent(b)] && ok == Enough(b);
  }

  lemma {:induction false} SubsetSize<K>(a: set<K>, b: set<K>)
    requires a <= b
    ensures |a| <= |b|
  {
    if a != {} {
      var x :| x in a;
      SubsetSize(a - {x}, b - {x});
    }
  }

  lemma {:induction false} RequestedStays<K(!new)>(refill: Refiller, r: Rate, maxKeys: int, u: Run<K>, keys: set<K>, k: K, i: nat, x: nat)
    requires IsRun(refill, r, maxKeys, u) && Among(u.reqs, keys) && (maxKeys <= 0 || |keys| <= maxKeys)
    requires x <= |u.reqs| && Requested(u, k, i, x)
    ensures k in u.states[x]
  {
    hide Admits;
    var m, q := u.states[x - 1], u.reqs[x - 1];
    assert StepOK(refill, r, maxKeys, u, x - 1);
    if q.key == k {
      AdmitsKeyStep(refill, m, r, maxKeys, q, u.victims[x - 1], u.states[x], u.oks[x - 1], k);
    } else {
      assert Requested(u, k, i, x - 1);
      RequestedStays(refill, r, maxKeys, u, keys, k, i, x - 1);
      HeldAmong(refill, r, maxKeys, u, keys, x - 1);
      RoomForAll(refill, m, r, maxKeys, q, u.victims[x - 1], u.states[x], u.oks[x - 1], keys);
    }
  }

  lemma FewKeysStay<K(!new)>(refill: Refiller, r: Rate, maxKeys: int, u: Run<K>, keys: set<K>, k: K, i: nat, j: nat)
    requires IsRun(refill, r, maxKeys, u) && Among(u.reqs, keys) && (maxKeys <= 0 || |keys| <= maxKeys)
    ensures ComesBackFull(r, u, k, i, j)
  {
    hide StepOK, Requested, Held, Full, Among;
    forall x | i <= x < j && x < |u.reqs| && Requested(u, k, i, x)
      ensures k in u.states[x]
    {
      RequestedStays(refill, r, maxKeys, u, keys, k, i, x);
    }
  }

  // ----- readings that are out of order by little -----

  /** No reading is behind an earlier one by more than `skew`. */
  ghost predicate WithinSkew<K(!new)>(reqs: seq<Req<K>>, skew: nat) {
    forall x, y :: 0 <= x < y < |reqs| ==> reqs[x].now - skew <= reqs[y].now
  }

  /** `k` is not thrown out as the oldest key in the window. */
  ghost predicate NotThrown<K(!new)>(u: Run<K>, k: K, i: nat, j: nat) {
    forall x :: i <= x < j && x < |u.victims| ==> u.victims[x] != Some(k)
  }

  /** How long it takes a bucket to get out of debt: the client limiter lets it go below zero. */
  function Debt(kind: Kind, skew: nat): nat {
    if kind.Client? then skew else 0
  }

  /** The tokens, counted from some earlier reading, are not negative. */
  ghost predicate Owes<K(!new)>(r: Rate, reqs: seq<Req<K>>, i: nat, b: Bucket) {
    exists p :: 0 <= p < i <= |reqs| && b.tokens >= Seconds(b.last - reqs[p].now) * r.qps
  }

  lemma OwesStep<K(!new)>(r: Rate, reqs: seq<Req<K>>, i: nat, b: Bucket)
    requires Sane(r) && i < |reqs| && (Owes(r, reqs, i, b) || (b.tokens >= 0.0 && b.last == reqs[i].now))
    ensures Owes(r, reqs, i + 1, Spent(Refill(r, b, reqs[i].now)))
  {
    var c := Refill(r, b, reqs[i].now);
    assert Seconds(0) * r.qps == 0.0;
    if Enough(c) || c.tokens == r.burst {
      assert Spent(c).tokens >= Seconds(Spent(c).last - reqs[i].now) * r.qps;
    } else if Owes(r, reqs, i, b) {
      var p :| 0 <= p < i <= |reqs| && b.tokens >= Seconds(b.last - reqs[p].now) * r.qps;
      SecondsAdd(b.last - reqs[p].now, reqs[i].now - b.last, r.qps);
      assert c.tokens >= Seconds(c.last - reqs[p].now) * r.qps;
    } else {
      assert c.tokens >= Seconds(c.last - reqs[i].now) * r.qps;
    }
  }

  lemma OwesLater<K(!new)>(r: Rate, reqs: seq<Req<K>>, i: nat, b: Bucket)
    requires i < |reqs| && Owes(r, reqs, i, b)
    ensures Owes(r, reqs, i + 1, b)
  {
    hide Seconds;
  }

  /** A bucket was last refilled at some earlier reading, and owes no more than since one. */
  lemma {:induction false} RunOwes<K(!new)>(r: Rate, maxKeys: int, u: Run<K>, skew: nat, k: K, i: nat)
    requires Sane(r) && IsRun(Refill, r, maxKeys, u) && WithinSkew(u.reqs, skew) && i <= |u.reqs| && k in u.states[i]
    ensures Owes(r, u.reqs, i, u.states[i][k]) && u.states[i][k].tokens >= -(Seconds(skew) * r.qps)
  {
    hide Admits, Seconds, Enough, Spent, Refill, Owes;
    var m, q := u.states[i - 1], u.reqs[i - 1];
    assert StepOK(Refill, r, maxKeys, u, i - 1);
    AdmitsKeyStep(Refill, m, r, maxKeys, q, u.victims[i - 1], u.states[i], u.oks[i - 1], k);
    if k in m {
      RunOwes(r, maxKeys, u, skew, k, i - 1);
    }
    if q.key == k {
      var b := BucketOf(m, r, k, q.now);
      OwesStep(r, u.reqs, i - 1, b);
      RefillStamps(r, b, q.now);
      OwesLittle(r, u.reqs, i, u.states[i][k], skew);
    } else {
      OwesLater(r, u.reqs, i - 1, m[k]);
    }
  }

  lemma RefillStamps(r: Rate, b: Bucket, now: int)
    ensures Spent(Refill(r, b, now)).last == now
  {
  }

  lemma OwesLittle<K(!new)>(r: Rate, reqs: seq<Req<K>>, i: nat, b: Bucket, skew: nat)
    requires Sane(r) && WithinSkew(reqs, skew) && 0 < i <= |reqs| && b.last == reqs[i - 1].now && Owes(r, reqs, i, b)
    ensures b.tokens >= -(Seconds(skew) * r.qps)
  {
    hide Seconds;
    var p :| 0 <= p < i <= |reqs| && b.tokens >= Seconds(b.last - reqs[p].now) * r.qps;
    assert p < i - 1 ==> reqs[p].now - skew <= reqs[i - 1].now;
    SecondsMonotone(0 - skew, b.last - reqs[p].now, r.qps);
    SecondsMinus(skew, r.qps);
  }

  lemma SecondsMinus(x: int, q: real)
    ensures Seconds(0 - x) * q == -(Seconds(x) * q)
  {
  }

  lemma SecondsMonotone(x: int, y: int, q: real)
    requires x <= y && q >= 0.0
    ensures Seconds(x) * q <= Seconds(y) * q
  {
    MulMonotone(Seconds(x), Seconds(y), q);
  }

  /** The second by which idle buckets outlive their refilling covers debt and skew. */
  lemma IdleBackFull(r: Rate, b: Bucket, t: int, now: int, skew: nat, debt: nat)
    requires Sane(r) && Idle(r, b, t) && t - skew <= now && skew + debt <= SECOND && b.tokens >= -(Seconds(debt) * r.qps)
    ensures Full(r, b, now)
  {
    var d := now - b.last - debt;
    var need := r.burst / r.qps * 1_000_000_000.0;
    assert d > need.Floor;
    assert d as real > need;
    assert Seconds(d) >= r.burst / r.qps;
    FillsUp(r, Seconds(d));
    SecondsAdd(debt, d, r.qps);
  }

  lemma RunDebt<K(!new)>(kind: Kind, r: Rate, maxKeys: int, u: Run<K>, skew: nat, k: K, i: nat)
    requires Fits(kind, r) && IsRun(RefillOf(kind), r, maxKeys, u) && WithinSkew(u.reqs, skew) && i <= |u.reqs| && k in u.states[i]
    ensures u.states[i][k].tokens >= -(Seconds(Debt(kind, skew)) * r.qps)
  {
    hide Seconds, StepOK, Owes;
    if kind.Client? {
      RunOwes(r, maxKeys, u, skew, k, i);
    } else {
      CutRunInRange(r, maxKeys, u, i);
      Nonnegative(0, r.qps);
    }
  }

  lemma DropIsIdle<K(!new)>(
    refill: Refiller, m: map<K, Bucket>, r: Rate, maxKeys: int, q: Req<K>, victim: Option<K>, after: map<K, Bucket>, ok: bool, k: K)
    requires Admits(refill, m, r, maxKeys, q.key, q.now, victim, after, ok) && k in m && k !in after && victim != Some(k)
    ensures Idle(r, m[k], q.now)
  {
    hide MakesRoom, Spent, Enough, Idle;
    var room :| MakesRoom(m, r, maxKeys, q.key, q.now, victim, room)
                && var b := refill(r, BucketOf(room, r, q.key, q.now), q.now);
                after == room[q.key := Spent(b)] && ok == Enough(b);
    RoomMeaning(m, r, maxKeys, q.key, q.now, victim, room);
  }

  /** A key lost in the window was dropped as idle. */
  lemma {:induction false} LostAsIdle<K(!new)>(refill: Refiller, r: Rate, maxKeys: int, u: Run<K>, k: K, i: nat, x: nat) returns (y: nat)
    requires IsRun(refill, r, maxKeys, u) && NotThrown(u, k, i, x) && x <= |u.reqs| && Requested(u, k, i, x) && k !in u.states[x]
    ensures y < x && k in u.states[y] && Held(u, k, x) == Some(u.states[y][k]) && Idle(r, u.states[y][k], u.reqs[y].now)
  {
    hide Admits, Idle;
    var m, q := u.states[x - 1], u.reqs[x - 1];
    assert StepOK(refill, r, maxKeys, u, x - 1);
    AdmitsKeyStep(refill, m, r, maxKeys, q, u.victims[x - 1], u.states[x], u.oks[x - 1], k);
    if k in m {
      y := x - 1;
      DropIsIdle(refill, m, r, maxKeys, q, u.victims[x - 1], u.states[x], u.oks[x - 1], k);
    } else {
      assert Requested(u, k, i, x - 1);
      y := LostAsIdle(refill, r, maxKeys, u, k, i, x - 1);
    }
  }

  lemma LittleSkewBackFull<K(!new)>(kind: Kind, r: Rate, maxKeys: int, u: Run<K>, k: K, i: nat, j: nat, skew: nat)
    requires Fits(kind, r) && IsRun(RefillOf(kind), r, maxKeys, u) && NotThrown(u, k, i, j)
    requires WithinSkew(u.reqs, skew) && skew + Debt(kind, skew) <= SECOND
    ensures ComesBackFull(r, u, k, i, j)
  {
    hide StepOK, Requested, Held, Full, Idle, Seconds, Fits, Debt;
    forall x | i <= x < j && x < |u.reqs| && u.reqs[x].key == k && k !in u.states[x] && Requested(u, k, i, x)
      ensures Held(u, k, x).Some? && Full(r, Held(u, k, x).value, u.reqs[x].now)
    {
      var y := LostAsIdle(RefillOf(kind), r, maxKeys, u, k, i, x);
      RunDebt(kind, r, maxKeys, u, skew, k, y);
      FitsSane(kind, r);
      IdleBackFull(r, u.states[y][k], u.reqs[y].now, u.reqs[x].now, skew, Debt(kind, skew));
    }
  }

  lemma FitsSane(kind: Kind, r: Rate)
    requires Fits(kind, r)
    ensures Sane(r)
  {
  }

  /** With a clock that does not run back the window is as long as it looks. */
  lemma WindowBound<K(!new)>(kind: Kind, r: Rate, maxKeys: int, u: Run<K>, k: K, i: nat, j: nat)
    requires Fits(kind, r) && IsRun(RefillOf(kind), r, maxKeys, u) && Monotone(u.reqs) && i < j <= |u.reqs| && NotThrown(u, k, i, j)
    ensures Bounded(r, u, k, i, j, u.reqs[i].now, u.reqs[j - 1].now)
  {
    hide StepOK, ComesBackFull, Bounded, NotThrown, Fits;
    LittleSkewBackFull(kind, r, maxKeys, u, k, i, j, 0);
    AnyClockBound(kind, r, maxKeys, u, k, i, j, u.reqs[i].now, u.reqs[j - 1].now);
  }
}
