/** The limiters under clock readings that come in any order. */
module LimiterClocks {
  import opened Names
  import opened Records
  import opened TokenBucket
  import opened TokenBucketLaws

  // ----- clocks that run backwards -----

  ghost predicate AllInRange<K(!new)>(m: map<K, Bucket>, r: Rate) {
    forall k :: k in m ==> InRange(r, m[k])
  }

  lemma CutInRange(r: Rate, b: Bucket, now: int)
    requires r.qps > 0.0 && r.burst >= 0.0 && InRange(r, b)
    ensures InRange(r, Spent(CutRefill(r, b, now)))
  {
    hide Refill;
    if b.last <= now {
      CutIsExact(r, b, now);
      RefillInRange(r, b, now);
    }
  }

  /** Over any run of the upstream limiter every bucket stays in range, whatever its clock does. */
  lemma {:induction false} CutRunInRange<K(!new)>(r: Rate, maxKeys: int, u: Run<K>, i: nat)
    requires r.qps > 0.0 && r.burst >= 0.0 && IsRun(CutRefill, r, maxKeys, u) && i <= |u.reqs|
    ensures AllInRange(u.states[i], r)
  {
    hide MakesRoom, CutRefill, Spent, Enough;
    if i > 0 {
      CutRunInRange(r, maxKeys, u, i - 1);
      var q := u.reqs[i - 1];
      assert StepOK(CutRefill, r, maxKeys, u, i - 1);
      var room :| MakesRoom(u.states[i - 1], r, maxKeys, q.key, q.now, u.victims[i - 1], room)
                  && var b := CutRefill(r, BucketOf(room, r, q.key, q.now), q.now);
                  u.states[i] == room[q.key := Spent(b)] && u.oks[i - 1] == Enough(b);
      RoomMeaning(u.states[i - 1], r, maxKeys, q.key, q.now, u.victims[i - 1], room);
      CutInRange(r, BucketOf(room, r, q.key, q.now), q.now);
    }
  }

  /** The requests of each key, taken alone, do not go back in time. */
  ghost predicate KeyMonotone<K(!new)>(reqs: seq<Req<K>>) {
    forall i, j :: 0 <= i < j < |reqs| && reqs[i].key == reqs[j].key ==> reqs[i].now <= reqs[j].now
  }

  /** A bucket was last refilled by a request for its own key. */
  ghost predicate StampedBy<K(!new)>(reqs: seq<Req<K>>, i: nat, k: K, b: Bucket) {
    exists x :: 0 <= x < i <= |reqs| && reqs[x].key == k && reqs[x].now == b.last
  }

  ghost predicate Sound<K(!new)>(reqs: seq<Req<K>>, i: nat, m: map<K, Bucket>, r: Rate) {
    forall k :: k in m ==> InRange(r, m[k]) && StampedBy(reqs, i, k, m[k])
  }

  lemma OwnBucketInRange<K(!new)>(r: Rate, reqs: seq<Req<K>>, i: nat, m: map<K, Bucket>)
    requires Sane(r) && KeyMonotone(reqs) && i < |reqs| && Sound(reqs, i, m, r)
    ensures var b := BucketOf(m, r, reqs[i].key, reqs[i].now); InRange(r, b) && b.last <= reqs[i].now
  {
    var k := reqs[i].key;
    if k in m {
      var x :| 0 <= x < i && reqs[x].key == k && reqs[x].now == m[k].last;
    }
  }

  lemma SoundStep<K(!new)>(
    r: Rate, reqs: seq<Req<K>>, i: nat, m: map<K, Bucket>, victim: Option<K>, room: map<K, Bucket>, after: map<K, Bucket>, ok: bool)
    requires Sane(r) && KeyMonotone(reqs) && i < |reqs| && Sound(reqs, i, m, r)
    requires Request(m, r, reqs[i].key, reqs[i].now, victim, room, after, ok)
    ensures Sound(reqs, i + 1, after, r)
  {
    hide Refill, BucketOf, KeyMonotone, Idle, InRange;
    var q := reqs[i];
    OwnBucketInRange(r, reqs, i, m);
    var b := BucketOf(m, r, q.key, q.now);
    RefillInRange(r, b, q.now);
    RefillLast(r, b, q.now);
    SpentInRange(r, Refill(r, b, q.now));
    assert StampedBy(reqs, i + 1, q.key, Spent(Refill(r, b, q.now)));
    forall k | k in after && k != q.key
      ensures InRange(r, after[k]) && StampedBy(reqs, i + 1, k, after[k])
    {
      assert StampedBy(reqs, i, k, m[k]);
    }
  }

  lemma SpentInRange(r: Rate, b: Bucket)
    requires InRange(r, b)
    ensures InRange(r, Spent(b)) && Spent(b).last == b.last
  {
  }

  lemma {:induction false} KeyMonotoneSound<K(!new)>(r: Rate, maxKeys: int, u: Run<K>, i: nat)
    requires Sane(r) && IsRun(Refill, r, maxKeys, u) && KeyMonotone(u.reqs) && i <= |u.reqs|
    ensures Sound(u.reqs, i, u.states[i], r)
  {
    hide Admits, Request, KeyMonotone, Sound;
    if i == 0 {
      NothingSound(u.reqs, r);
    } else {
      KeyMonotoneSound(r, maxKeys, u, i - 1);
      var q := u.reqs[i - 1];
      assert StepOK(Refill, r, maxKeys, u, i - 1);
      var room := AdmitsIsRequest(u.states[i - 1], r, maxKeys, q.key, q.now, u.victims[i - 1], u.states[i], u.oks[i - 1]);
      SoundStep(r, u.reqs, i - 1, u.states[i - 1], u.victims[i - 1], room, u.states[i], u.oks[i - 1]);
    }
  }

  lemma NothingSound<K(!new)>(reqs: seq<Req<K>>, r: Rate)
    ensures Sound(reqs, 0, map[], r)
  {
  }

  /** The limiter that never evicts, request by request. */
  ghost function PlainAfter<K>(r: Rate, reqs: seq<Req<K>>, i: nat): map<K, Bucket>
    requires i <= |reqs|
  {
    if i == 0 then map[]
    else
      var m, q := PlainAfter(r, reqs, i - 1), reqs[i - 1];
      m[q.key := Spent(Refill(r, BucketOf(m, r, q.key, q.now), q.now))]
  }

  ghost function PlainOk<K>(r: Rate, reqs: seq<Req<K>>, i: nat): bool
    requires i < |reqs|
  {
    Enough(Refill(r, BucketOf(PlainAfter(r, reqs, i), r, reqs[i].key, reqs[i].now), reqs[i].now))
  }

  ghost function PlainRun<K(!new)>(r: Rate, reqs: seq<Req<K>>): Run<K> {
    Run(reqs,
        seq(|reqs| + 1, i requires 0 <= i <= |reqs| => PlainAfter(r, reqs, i)),
        seq(|reqs|, i requires 0 <= i < |reqs| => PlainOk(r, reqs, i)),
        seq(|reqs|, i => None))
  }

  lemma PlainRunIsRun<K(!new)>(r: Rate, reqs: seq<Req<K>>)
    ensures IsRun(Refill, r, 0, PlainRun(r, reqs))
  {
    hide Refill, BucketOf, Enough, Spent;
    var u := PlainRun(r, reqs);
    forall i | 0 <= i < |reqs|
      ensures StepOK(Refill, r, 0, u, i)
    {
      var m, q := PlainAfter(r, reqs, i), reqs[i];
      assert MakesRoom(m, r, 0, q.key, q.now, None, m);
    }
  }

  /** Between two requests of a key its bucket stays as the first one left it. */
  lemma {:induction false} BucketWaits<K(!new)>(r: Rate, reqs: seq<Req<K>>, p: nat, q: nat)
    requires p < q <= |reqs| && forall x :: p < x < q ==> reqs[x].key != reqs[p].key
    ensures var m := PlainAfter(r, reqs, q);
            reqs[p].key in m && m[reqs[p].key].last == reqs[p].now && m[reqs[p].key].tokens <= r.burst
    decreases q
  {
    if q > p + 1 {
      BucketWaits(r, reqs, p, q - 1);
    }
  }

  /** Somewhere two neighbouring requests of one key go back. */
  lemma {:induction false} Neighbours<K(!new)>(reqs: seq<Req<K>>, i: nat, j: nat) returns (p: nat, q: nat)
    requires i < j < |reqs| && reqs[i].key == reqs[j].key && reqs[i].now > reqs[j].now
    ensures p < q < |reqs| && reqs[p].key == reqs[q].key && reqs[p].now > reqs[q].now
    ensures forall x :: p < x < q ==> reqs[x].key != reqs[p].key
    decreases j - i
  {
    if x :| i < x < j && reqs[x].key == reqs[i].key {
      if reqs[x].now > reqs[j].now {
        p, q := Neighbours(reqs, x, j);
      } else {
        p, q := Neighbours(reqs, i, x);
      }
    } else {
      p, q := i, j;
    }
  }

  /** A step back of more than burst/qps seconds takes every token there can be, and more. */
  lemma BackstepDrains(r: Rate, b: Bucket, now: int)
    requires r.qps > 0.0 && r.burst >= 0.0 && b.tokens <= r.burst && Seconds(b.last - now) * r.qps > r.burst
    ensures Spent(Refill(r, b, now)).tokens < 0.0
  {
    assert Seconds(now - b.last) == -Seconds(b.last - now);
    assert Seconds(now - b.last) * r.qps == -(Seconds(b.last - now) * r.qps);
  }

  ghost predicate RunInRange<K(!new)>(r: Rate, u: Run<K>) {
    forall i :: 0 <= i < |u.states| ==> AllInRange(u.states[i], r)
  }

  /** Whatever the rate and the cap, no run over these requests takes a bucket out of range. */
  ghost predicate AlwaysInRange<K(!new)>(reqs: seq<Req<K>>) {
    forall r, maxKeys, u: Run<K> :: Sane(r) && u.reqs == reqs && IsRun(Refill, r, maxKeys, u) ==> RunInRange(r, u)
  }

  lemma GoingBackDrains<K(!new)>(reqs: seq<Req<K>>, i: nat, j: nat)
    requires i < j < |reqs| && reqs[i].key == reqs[j].key && reqs[i].now > reqs[j].now
    ensures !AlwaysInRange(reqs)
  {
    hide Refill, Admits;
    var r := Rate(2_000_000_000.0, 1.0);
    var p, q := Neighbours(reqs, i, j);
    BucketWaits(r, reqs, p, q);
    var k, u := reqs[q].key, PlainRun(r, reqs);
    var b := PlainAfter(r, reqs, q)[k];
    NanosecondCosts(b.last - reqs[q].now);
    BackstepDrains(r, b, reqs[q].now);
    PlainRunIsRun(r, reqs);
    assert u.states[q + 1][k] == Spent(Refill(r, b, reqs[q].now));
    assert !AllInRange(u.states[q + 1], r);
  }

  lemma NanosecondCosts(d: int)
    requires d > 0
    ensures Seconds(d) * 2_000_000_000.0 > 1.0
  {
    assert d as real >= 1.0;
    assert Seconds(d) * 2_000_000_000.0 == d as real * 2.0;
  }

  /** The client limiter's buckets stay in range for all rates, caps and evictions exactly when no
      key's requests go back in time. */
  lemma RangeExactly<K(!new)>(reqs: seq<Req<K>>)
    ensures AlwaysInRange(reqs) <==> KeyMonotone(reqs)
  {
    hide IsRun, Refill;
    if KeyMonotone(reqs) {
      forall r, maxKeys, u: Run<K> | Sane(r) && u.reqs == reqs && IsRun(Refill, r, maxKeys, u)
        ensures RunInRange(r, u)
      {
        RunStaysInRange(r, maxKeys, u);
      }
    } else {
      var i, j :| 0 <= i < j < |reqs| && reqs[i].key == reqs[j].key && reqs[i].now > reqs[j].now;
      GoingBackDrains(reqs, i, j);
    }
  }

  lemma RunStaysInRange<K(!new)>(r: Rate, maxKeys: int, u: Run<K>)
    requires Sane(r) && IsRun(Refill, r, maxKeys, u) && KeyMonotone(u.reqs)
    ensures RunInRange(r, u)
  {
    hide Admits, KeyMonotone, InRange;
    forall i | 0 <= i < |u.states|
      ensures AllInRange(u.states[i], r)
    {
      KeyMonotoneSound(r, maxKeys, u, i);
    }
  }

  /** At the default rate: a request at three seconds and one at zero leave eleven tokens of debt. */
  lemma DefaultRateDrained<K(!new)>(k: K)
    ensures var r, reqs := Rate(10.0, 20.0), [Req(k, 3 * SECOND), Req(k, 0)];
            && IsRun(Refill, r, 0, PlainRun(r, reqs))
            && k in PlainRun(r, reqs).states[2] && PlainRun(r, reqs).states[2][k].tokens == -11.0
  {
    var r, reqs := Rate(10.0, 20.0), [Req(k, 3 * SECOND), Req(k, 0)];
    PlainRunIsRun(r, reqs);
    assert PlainAfter(r, reqs, 0) == map[];
    assert Seconds(0) * 10.0 == 0.0 && Seconds(-3 * SECOND) * 10.0 == -30.0;
    assert PlainAfter(r, reqs, 1)[k] == Bucket(19.0, 3 * SECOND);
    assert PlainAfter(r, reqs, 2)[k] == Bucket(-11.0, 0);
  }
}
