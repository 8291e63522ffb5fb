/** What the recursive resolver's cache promises over any run. */
module RecursiveCacheLaws {
  import opened Names
  import opened Records
  import opened Bailiwick
  import opened BailiwickLaws
  import opened CnameChase
  import opened RecursiveCache
  import opened Shards

  // ----- lifetimes -----

  /** TTLs on the wire are unsigned. */
  ghost predicate WireTTLs(recs: seq<Record>) {
    forall r :: r in recs ==> r.ttl >= 0
  }

  lemma {:induction false} MinFromBounds(recs: seq<Record>, start: int)
    requires WireTTLs(recs)
    ensures forall r :: r in recs ==> 0 <= MinFrom(recs, start) <= r.ttl
    ensures start >= 0 ==> 0 <= MinFrom(recs, start) <= start
    ensures MinFrom(recs, start) == start || exists r :: r in recs && r.ttl == MinFrom(recs, start)
  {
    if recs != [] {
      var init, last := recs[..|recs| - 1], recs[|recs| - 1];
      assert recs == init + [last] && last in recs;
      MinFromBounds(init, start);
    }
  }

  ghost predicate SomeTTL(answers: seq<Record>, authority: seq<Record>, ttl: int) {
    exists r :: (r in answers || r in authority) && r.ttl == ttl
  }

  lemma MinTTLBounds(answers: seq<Record>, authority: seq<Record>)
    requires WireTTLs(answers) && WireTTLs(authority)
    ensures forall r :: r in answers || r in authority ==> 0 <= MinTTL(answers, authority) <= r.ttl
    ensures if answers == [] && authority == [] then MinTTL(answers, authority) == FLOOR
            else SomeTTL(answers, authority, MinTTL(answers, authority))
  {
    hide MinFrom;
    MinFromBounds(answers, -1);
    MinFromBounds(authority, MinFrom(answers, -1));
    if answers != [] {
      assert answers[0] in answers;
    }
    if authority != [] {
      assert authority[0] in authority;
    }
    if answers == [] && authority == [] {
      EmptyMin();
    }
  }

  lemma EmptyMin()
    ensures MinTTL([], []) == FLOOR
  {
  }

  /** An entry never outlives a record it was built from, nor the configured cap. */
  lemma LifetimeBounds(c: Config, m: Sections)
    requires WireTTLs(m.answers) && WireTTLs(m.authority)
    ensures forall r :: r in m.answers || r in m.authority ==> Lifetime(c, m) <= r.ttl
    ensures m.answers == [] && c.maxNegative > 0 ==> Lifetime(c, m) <= c.maxNegative
    ensures m.answers != [] && c.maxPositive > 0 ==> Lifetime(c, m) <= c.maxPositive
    ensures Lifetime(c, m) >= 0
  {
    hide MinTTL, NegativeTTL;
    MinTTLBounds(m.answers, m.authority);
  }

  /** The smallest TTL of the answer and authority records. */
  ghost predicate Smallest(m: Sections, ttl: int) {
    SomeTTL(m.answers, m.authority, ttl) && forall r :: r in m.answers || r in m.authority ==> ttl <= r.ttl
  }

  /** Cut off at a positive cap. */
  ghost predicate CutAt(ttl: int, cap: int, life: int) {
    if cap > 0 && ttl > cap then life == cap else life == ttl
  }

  /** An answer lives for the smallest TTL of its answer and authority records, cut off at the cap. */
  lemma PositiveLifetimeExactly(c: Config, m: Sections)
    requires WireTTLs(m.answers) && WireTTLs(m.authority) && m.answers != []
    ensures exists ttl :: Smallest(m, ttl) && CutAt(ttl, c.maxPositive, Lifetime(c, m))
  {
    hide MinTTL;
    MinTTLBounds(m.answers, m.authority);
    assert Smallest(m, MinTTL(m.answers, m.authority));
  }

  /** The smallest authority TTL, or a minute if there is none. */
  ghost predicate NegativeBase(m: Sections, ttl: int) {
    if m.authority == [] then ttl == 60_000_000_000 else Smallest(m, ttl)
  }

  /** The smaller of TTL and MINIMUM of the first SOA, if that is positive and less, and else the base. */
  ghost predicate NegativeFrom(m: Sections, base: int, ttl: int) {
    match FirstSoa(m.authority)
    case None => ttl == base
    case Some(r) =>
      var neg := if r.ttl < r.rdata.soa.minimum then r.ttl else r.rdata.soa.minimum;
      ttl == if 0 < neg < base then neg else base
  }

  /** A negative answer lives that long, cut off at its cap. */
  lemma NegativeLifetimeMeaning(c: Config, m: Sections)
    requires WireTTLs(m.authority) && m.answers == []
    ensures exists base, ttl :: NegativeBase(m, base) && NegativeFrom(m, base, ttl) && CutAt(ttl, c.maxNegative, Lifetime(c, m))
  {
    hide MinTTL, FirstSoa;
    MinTTLBounds(m.answers, m.authority);
    var base := MinTTL(m.answers, m.authority);
    assert NegativeBase(m, base);
    var neg := NegativeTTL(m.authority);
    assert NegativeFrom(m, base, if 0 < neg < base then neg else base);
  }

  ghost predicate ZeroTTL(recs: seq<Record>) {
    exists r :: r in recs && r.ttl == 0
  }

  /** A negative entry obeys min(SOA TTL, MINIMUM) exactly when MINIMUM is positive or some
      authority TTL is zero: a MINIMUM of zero is taken for a missing one. */
  lemma NegativeLifetimeExactly(c: Config, m: Sections)
    requires WireTTLs(m.authority) && m.answers == [] && FirstSoa(m.authority).Some?
    ensures var soa := FirstSoa(m.authority).value;
            Lifetime(c, m) <= SoaBound(soa) <==> soa.rdata.soa.minimum > 0 || ZeroTTL(m.authority)
  {
    hide MinTTL;
    MinTTLBounds([], m.authority);
    var soa := FirstSoa(m.authority).value;
    var ttl := MinTTL([], m.authority);
    assert 0 <= ttl <= soa.ttl;
    assert ttl == 0 <==> ZeroTTL(m.authority);
  }

  /** A negative answer with a MINIMUM of zero: an hour in the cache instead of none. */
  const ZERO_MINIMUM: Record := Record(Root, CLASS_IN, 3600 * SECOND, SoaData(SOA(Root, Root, 1, 0, 0, 0, 0)))

  lemma ZeroMinimumCached()
    ensures var m := Sections([], [ZERO_MINIMUM], []);
            SoaBound(ZERO_MINIMUM) == 0 && NegativeTTL(m.authority) == 0 && Lifetime(Config(0, 0, false), m) == 3600 * SECOND
  {
    var a := [ZERO_MINIMUM];
    assert a[..0] == [];
    assert MinFrom(a, -1) == 3600 * SECOND;
  }

  // ----- what a hit serves -----

  lemma CapKeeps(e: Entry, limit: nat)
    ensures var t := CapRecords(e, limit);
            && t.answer <= e.answer && t.authority <= e.authority && t.additional <= e.additional
            && |t.answer| + |t.authority| + |t.additional| == Min(limit, |e.answer| + |e.authority| + |e.additional|)
            && (t.authority != e.authority ==> t.additional == [])
            && (t.answer != e.answer ==> t.authority == [] && t.additional == [])
            && t.expiresAt == e.expiresAt && t.rcode == e.rcode && t.aa == e.aa && t.ad == e.ad
  {
  }

  lemma StoredKeeps(e: Entry, maxRecords: int)
    ensures var t := StoredAs(e, maxRecords);
            t.answer <= e.answer && t.authority <= e.authority && t.additional <= e.additional && t.expiresAt == e.expiresAt
            && t.rcode == e.rcode && t.aa == e.aa && t.ad == e.ad
  {
    hide CapRecords;
    if maxRecords > 0 {
      CapKeeps(e, maxRecords);
    }
  }

  /** Every record of `served` is a record of `original` with a TTL no larger than what is left. */
  ghost predicate Aged(served: seq<Record>, original: seq<Record>, elapsed: int) {
    forall x :: x in served ==> exists r :: r in original && x == r.(ttl := x.ttl) && 0 < x.ttl <= r.ttl - elapsed
  }

  lemma RemainingAged(stored: seq<Record>, original: seq<Record>, left: int, elapsed: int)
    requires (forall r :: r in stored ==> r in original) && 0 < left && forall r :: r in original ==> left <= r.ttl - elapsed
    ensures Aged(Remaining(stored, left), original, elapsed)
  {
    var s := Remaining(stored, left);
    forall x | x in s
      ensures exists r :: r in original && x == r.(ttl := x.ttl) && 0 < x.ttl <= r.ttl - elapsed
    {
      var i :| 0 <= i < |s| && s[i] == x;
      assert stored[i] in stored;
    }
  }

  lemma FilteredListed(qname: Name, m: Sections)
    ensures var kept := RecursiveFilter(qname, m);
            (forall r :: r in kept.answers ==> r in m.answers) && forall r :: r in kept.authority ==> r in m.authority
  {
    hide Chain, DenialZone, DeepestAncestor, Believed, OwnerIn, Referenced;
    FilterMember(m.answers, OwnerIn(Chain(m.answers, qname)));
    FilterMember(m.authority, Believed(qname, DenialZone(qname, m.authority)));
  }

  /** An entry built at `at` and hit at `now`: alive, and every answer or authority record aged by
      the time in between. */
  lemma HitIsAged(c: Config, qname: Name, resp: Response, maxRecords: int, at: int, now: int)
    requires WireTTLs(resp.sections.answers) && WireTTLs(resp.sections.authority)
    requires StoredAs(EntryFrom(c, qname, resp, at), maxRecords).expiresAt > now
    ensures var hit := Served(StoredAs(EntryFrom(c, qname, resp, at), maxRecords), now);
            && Aged(hit.answer, resp.sections.answers, now - at)
            && Aged(hit.authority, resp.sections.authority, now - at)
            && now < at + Lifetime(c, resp.sections)
            && hit.rcode == resp.rcode && hit.aa == resp.aa && (hit.ad <==> c.validating && resp.ad)
  {
    hide Lifetime, RecursiveFilter, CapRecords, StoredAs, Aged;
    var e := EntryFrom(c, qname, resp, at);
    var stored := StoredAs(e, maxRecords);
    LifetimeBounds(c, resp.sections);
    StoredKeeps(e, maxRecords);
    FilteredListed(qname, resp.sections);
    RemainingAged(stored.answer, resp.sections.answers, stored.expiresAt - now, now - at);
    RemainingAged(stored.authority, resp.sections.authority, stored.expiresAt - now, now - at);
  }

  // ----- nothing is lost -----

  /** The answers the query name leads to. */
  ghost function LedTo(answers: seq<Record>, qname: Name): seq<Record> {
    Filter(answers, (r: Record) => Reachable(answers, qname, r.name))
  }

  /** What is built from a response: the answers the query name leads to, all of them and in order, the
      believed authority and additional records, the code and flags, and the expiry. */
  lemma EntryExactly(c: Config, qname: Name, resp: Response, now: int, r: Record)
    ensures var e, m := EntryFrom(c, qname, resp, now), resp.sections;
            && e.answer == LedTo(m.answers, qname)
            && (r in e.answer <==> r in m.answers && Reachable(m.answers, qname, r.name))
            && InOrder(e.authority, m.authority) && InOrder(e.additional, m.additional)
            && (r in e.authority <==>
                  r in m.authority && (r.name.Root? ==> qname.Root?) && (AtOrBelow(qname, r.name) || DenialRecord(qname, m.authority, r)))
            && (r in e.additional <==>
                  && r in m.additional
                  && (r.Type() == TYPE_OPT ||
                      (PointedAt(Sections(e.answer, e.authority, []), r.name)
                       && forall a :: a in e.authority && AtOrBelow(qname, a.name) ==> AtOrBelow(r.name, a.name))))
            && e.rcode == resp.rcode && e.aa == resp.aa && (e.ad <==> c.validating && resp.ad)
            && e.expiresAt == now + Lifetime(c, m)
  {
    hide Lifetime, RecursiveFilter, Reachable, InOrder, AtOrBelow, DenialRecord;
    var m := resp.sections;
    AnswersExactly(qname, m, r);
    SectionsInOrder(qname, m);
    AuthorityExactly(qname, m, r);
    AdditionalExactly(qname, m, r);
    AnswersLedTo(qname, m);
  }

  lemma AnswersLedTo(qname: Name, m: Sections)
    ensures RecursiveFilter(qname, m).answers == LedTo(m.answers, qname)
  {
    hide Filter, Chain, Reachable, Believed, DenialZone, DeepestAncestor, Referenced;
    forall r | r in m.answers
      ensures r.name in Chain(m.answers, qname) <==> Reachable(m.answers, qname, r.name)
    {
      ChainIsReachable(m.answers, qname, r.name);
    }
    FilterAgrees(m.answers, OwnerIn(Chain(m.answers, qname)), (r: Record) => Reachable(m.answers, qname, r.name));
  }

  /** The same records in the same order, each with the time left as its TTL. */
  ghost predicate OnlyTTL(served: seq<Record>, stored: seq<Record>, left: int) {
    |served| == |stored| && forall i :: 0 <= i < |stored| ==>
      && served[i].name == stored[i].name && served[i].cls == stored[i].cls && served[i].rdata == stored[i].rdata
      && served[i].ttl == left
  }

  /** A hit serves every record of the entry that was put, up to the record limit, which takes additional
      records first, then authority, then answers; nothing else about it changes. */
  lemma HitExactly(e: Entry, maxRecords: int, now: int)
    ensures var hit, stored, left := Served(StoredAs(e, maxRecords), now), StoredAs(e, maxRecords), e.expiresAt - now;
            && OnlyTTL(hit.answer, stored.answer, left) && OnlyTTL(hit.authority, stored.authority, left)
            && OnlyTTL(hit.additional, stored.additional, left)
            && hit.rcode == e.rcode && hit.aa == e.aa && hit.ad == e.ad && hit.expiresAt == e.expiresAt
    ensures maxRecords <= 0 || |e.answer| + |e.authority| + |e.additional| <= maxRecords ==> StoredAs(e, maxRecords) == e
  {
    hide CapRecords, Remaining;
    StoredKeeps(e, maxRecords);
    if maxRecords > 0 {
      Untrimmed(e, maxRecords);
    }
  }

  lemma Untrimmed(e: Entry, maxRecords: int)
    requires maxRecords > 0
    ensures |e.answer| + |e.authority| + |e.additional| <= maxRecords ==> CapRecords(e, maxRecords) == e
  {
  }

  /** Built, put without trimming and hit: every answer the query name leads to is served, in order, with
      only its TTL changed. */
  lemma AnswersServed(c: Config, qname: Name, resp: Response, maxRecords: int, at: int, now: int)
    requires var e := EntryFrom(c, qname, resp, at); maxRecords <= 0 || |e.answer| + |e.authority| + |e.additional| <= maxRecords
    ensures var hit := Served(StoredAs(EntryFrom(c, qname, resp, at), maxRecords), now);
            OnlyTTL(hit.answer, LedTo(resp.sections.answers, qname), at + Lifetime(c, resp.sections) - now)
  {
    hide Served, StoredAs, LedTo, OnlyTTL, Lifetime, RecursiveFilter;
    HitExactly(EntryFrom(c, qname, resp, at), maxRecords, now);
    AnswersLedTo(qname, resp.sections);
  }

  // ----- runs -----

  datatype Setup = Setup(size: int, maxRecords: int, shardOf: Key -> nat)

  /** A store takes any entry.  A lookup is two steps: it reads in one, and reaps in another if what
      it read was expired. */
  datatype Op =
    | PutOp(key: Key, entry: Entry, wall: int)
    | GetOp(key: Key, now: int)
    | ReapOp(key: Key, now: int)

  function Home(s: Setup, k: Key): (i: nat)
    ensures i < SHARDS
  {
    HomeOf(s.shardOf, k)
  }

  function Value(s: Setup, op: Op): Entry
    requires op.PutOp?
  {
    StoredAs(op.entry, s.maxRecords)
  }

  ghost predicate ShardStep(s: Setup, m: Shard, op: Op, after: Shard) {
    match op
    case PutOp(k, _, wall) => Puts(m, PerShard(s.size), k, Value(s, op), wall, after)
    case GetOp(_, _) => after == m
    case ReapOp(k, now) => after == Reaped(m, k, now)
  }

  ghost predicate Step(s: Setup, shards: seq<Shard>, op: Op, after: seq<Shard>) {
    && |shards| == |after| == SHARDS
    && ShardStep(s, shards[Home(s, op.key)], op, after[Home(s, op.key)])
    && forall i :: 0 <= i < SHARDS && i != Home(s, op.key) ==> after[i] == shards[i]
  }

  ghost predicate IsRun(s: Setup, ops: seq<Op>, states: seq<seq<Shard>>) {
    && |states| == |ops| + 1 && states[0] == seq(SHARDS, i => map[])
    && forall i :: 0 <= i < |ops| ==> Step(s, states[i], ops[i], states[i + 1])
  }

  /** The last store under `k` before step `i`. */
  ghost predicate LastPut(ops: seq<Op>, i: nat, k: Key, j: nat) {
    && j < i <= |ops| && ops[j].PutOp? && ops[j].key == k
    && forall x :: j < x < i ==> !(ops[x].PutOp? && ops[x].key == k)
  }

  ghost predicate HoldsLast(s: Setup, ops: seq<Op>, i: nat, k: Key, e: Entry) {
    exists j: nat :: LastPut(ops, i, k, j) && e == Value(s, ops[j])
  }

  /** Every entry of shard `h` is the last one stored under its key, and at home there. */
  ghost predicate ShardOK(s: Setup, ops: seq<Op>, i: nat, h: nat, m: Shard) {
    && (PerShard(s.size) > 0 ==> |m| <= PerShard(s.size))
    && forall k :: k in m ==> Home(s, k) == h && HoldsLast(s, ops, i, k, m[k])
  }

  ghost predicate Submap(a: Shard, b: Shard) {
    |a| <= |b| && forall k :: k in a ==> k in b && a[k] == b[k]
  }

  lemma UnexpiredSubmap(m: Shard, now: int)
    ensures Submap(Unexpired(m, now), m)
  {
    KeysSize(Unexpired(m, now), m);
  }

  lemma WithoutSubmap(m: Shard, k: Key)
    ensures Submap(m - {k}, m) && (k in m ==> |m - {k}| == |m| - 1)
  {
    KeysSize(m - {k}, m);
    if k in m {
      assert m == (m - {k})[k := m[k]];
    }
  }

  lemma EvictsRoom(m: Shard, cap: nat, now: int, after: Shard)
    requires Evicts(m, cap, now, after) && cap > 0 && |m| <= cap
    ensures Submap(after, m) && |after| < cap
  {
    hide SoonestKey;
    UnexpiredSubmap(m, now);
    var live := Unexpired(m, now);
    if |live| >= cap {
      var k :| SoonestKey(live, k) && after == live - {k};
      SoonestListed(live, k);
      WithoutSubmap(live, k);
    }
  }

  lemma SoonestListed(m: Shard, k: Key)
    requires SoonestKey(m, k)
    ensures k in m
  {
  }

  lemma EvictsSubmap(m: Shard, cap: nat, now: int, after: Shard)
    requires Evicts(m, cap, now, after)
    ensures Submap(after, m)
  {
    hide SoonestKey, Unexpired;
    UnexpiredSubmap(m, now);
    var live := Unexpired(m, now);
    if |live| >= cap && live != map[] {
      var k :| SoonestKey(live, k) && after == live - {k};
      WithoutSubmap(live, k);
    }
  }

  /** What a store drops from its shard: nothing unless a new key finds it full; then all that is expired,
      and if that is not enough one more, which expires no later than any that stays. */
  lemma DropsExactly(m: Shard, cap: nat, k: Key, e: Entry, now: int, after: Shard, x: Key)
    requires Puts(m, cap, k, e, now, after) && x != k
    ensures x in after ==> x in m && after[x] == m[x]
    ensures x in m && x !in after ==>
              && k !in m && cap > 0 && |m| >= cap
              && (m[x].expiresAt <= now || forall y :: y in after && y != k ==> m[x].expiresAt <= m[y].expiresAt)
    ensures k !in m && cap > 0 && |m| >= cap && x in after ==> m[x].expiresAt > now
    ensures forall y :: x in m && y in m && y != k && x !in after && y !in after && m[x].expiresAt > now && m[y].expiresAt > now ==> x == y
  {
    if k !in m && cap > 0 && |m| >= cap {
      var room :| Evicts(m, cap, now, room) && after == room[k := e];
    }
  }

  lemma PutsCapped(m: Shard, cap: nat, k: Key, e: Entry, now: int, after: Shard)
    requires Puts(m, cap, k, e, now, after) && cap > 0 && |m| <= cap
    ensures |after| <= cap
  {
    hide Evicts;
    if k !in m && |m| >= cap {
      var room :| Evicts(m, cap, now, room) && after == room[k := e];
      EvictsRoom(m, cap, now, room);
      AddedSize(room, k, e);
    } else {
      AddedSize(m, k, e);
    }
  }

  lemma AddedSize(m: Shard, k: Key, e: Entry)
    ensures |m[k := e]| == if k in m then |m| else |m| + 1
  {
    if k in m {
      assert m[k := e].Keys == m.Keys;
    }
  }

  lemma PutsKeeps(m: Shard, cap: nat, k: Key, e: Entry, now: int, after: Shard)
    requires Puts(m, cap, k, e, now, after)
    ensures k in after && after[k] == e && forall x :: x in after && x != k ==> x in m && after[x] == m[x]
  {
    hide Evicts;
    if k !in m && cap > 0 && |m| >= cap {
      var room :| Evicts(m, cap, now, room) && after == room[k := e];
      EvictsSubmap(m, cap, now, room);
    }
  }

  lemma ReapedKeeps(m: Shard, k: Key, now: int)
    ensures Submap(Reaped(m, k, now), m)
  {
    WithoutSubmap(m, k);
  }

  lemma LastPutLater(s: Setup, ops: seq<Op>, i: nat, k: Key, e: Entry)
    requires i < |ops| && HoldsLast(s, ops, i, k, e) && !(ops[i].PutOp? && ops[i].key == k)
    ensures HoldsLast(s, ops, i + 1, k, e)
  {
    hide Value;
    var j: nat :| LastPut(ops, i, k, j) && e == Value(s, ops[j]);
    assert LastPut(ops, i + 1, k, j);
  }

  lemma ShardSizeStep(s: Setup, m: Shard, op: Op, after: Shard)
    requires ShardStep(s, m, op, after) && PerShard(s.size) > 0 && |m| <= PerShard(s.size)
    ensures |after| <= PerShard(s.size)
  {
    hide Puts, Value, PerShard;
    match op
    case PutOp(k, _, wall) => PutsCapped(m, PerShard(s.size), k, Value(s, op), wall, after);
    case GetOp(_, _) =>
    case ReapOp(k, now) => ReapedKeeps(m, k, now);
  }

  lemma ShardEntryStep(s: Setup, ops: seq<Op>, i: nat, h: nat, m: Shard, after: Shard, k: Key)
    requires i < |ops| && h == Home(s, ops[i].key) && ShardStep(s, m, ops[i], after)
    requires forall x :: x in m ==> Home(s, x) == h && HoldsLast(s, ops, i, x, m[x])
    requires k in after
    ensures Home(s, k) == h && HoldsLast(s, ops, i + 1, k, after[k])
  {
    hide Puts, Value, PerShard;
    var op := ops[i];
    match op
    case PutOp(key, _, wall) =>
      PutsKeeps(m, PerShard(s.size), key, Value(s, op), wall, after);
      if k == key {
        assert LastPut(ops, i + 1, k, i);
      } else {
        LastPutLater(s, ops, i, k, m[k]);
      }
    case GetOp(_, _) =>
      LastPutLater(s, ops, i, k, m[k]);
    case ReapOp(key, now) =>
      ReapedKeeps(m, key, now);
      LastPutLater(s, ops, i, k, m[k]);
  }

  lemma OtherShardStep(s: Setup, ops: seq<Op>, i: nat, h: nat, m: Shard)
    requires i < |ops| && h != Home(s, ops[i].key) && ShardOK(s, ops, i, h, m)
    ensures ShardOK(s, ops, i + 1, h, m)
  {
    hide HoldsLast, PerShard;
    forall k | k in m
      ensures HoldsLast(s, ops, i + 1, k, m[k])
    {
      LastPutLater(s, ops, i, k, m[k]);
    }
  }

  lemma HomeShardStep(s: Setup, ops: seq<Op>, i: nat, h: nat, m: Shard, after: Shard)
    requires i < |ops| && h == Home(s, ops[i].key) && ShardStep(s, m, ops[i], after) && ShardOK(s, ops, i, h, m)
    ensures ShardOK(s, ops, i + 1, h, after)
  {
    hide HoldsLast, PerShard, ShardStep;
    if PerShard(s.size) > 0 {
      ShardSizeStep(s, m, ops[i], after);
    }
    forall k | k in after
      ensures Home(s, k) == h && HoldsLast(s, ops, i + 1, k, after[k])
    {
      ShardEntryStep(s, ops, i, h, m, after, k);
    }
  }

  /** Over any run, every shard stays within its cap and holds, under each key, what was stored
      there last. */
  lemma {:induction false} ReachableShards(s: Setup, ops: seq<Op>, states: seq<seq<Shard>>, i: nat, h: nat)
    requires IsRun(s, ops, states) && i <= |ops| && h < SHARDS
    ensures |states[i]| == SHARDS && ShardOK(s, ops, i, h, states[i][h])
  {
    hide ShardStep, PerShard, HoldsLast;
    if i > 0 {
      ReachableShards(s, ops, states, i - 1, h);
      assert Step(s, states[i - 1], ops[i - 1], states[i]);
      if h == Home(s, ops[i - 1].key) {
        HomeShardStep(s, ops, i - 1, h, states[i - 1][h], states[i][h]);
      } else {
        OtherShardStep(s, ops, i - 1, h, states[i - 1][h]);
      }
    }
  }

  ghost function TotalSize(shards: seq<Shard>): nat {
    Sum(seq(|shards|, h requires 0 <= h < |shards| => |shards[h]|))
  }

  /** A cache sized for `n` entries never holds more than n + 63. */
  lemma ReachableTotal(s: Setup, ops: seq<Op>, states: seq<seq<Shard>>, i: nat)
    requires IsRun(s, ops, states) && i <= |ops| && s.size > 0
    ensures TotalSize(states[i]) <= s.size + 63
  {
    hide Step, PerShard, Sum;
    ReachableShards(s, ops, states, i, 0);
    PerShardRounding(s.size);
    var sizes := seq(SHARDS, h requires 0 <= h < SHARDS => |states[i][h]|);
    forall h | 0 <= h < SHARDS
      ensures sizes[h] <= PerShard(s.size)
    {
      ReachableShards(s, ops, states, i, h);
    }
    ShardedTotal(sizes, s.size);
    assert sizes == seq(|states[i]|, h requires 0 <= h < |states[i]| => |states[i][h]|);
  }

  /** What a lookup at step `i` finds. */
  ghost function HitAt(s: Setup, shards: seq<Shard>, op: Op): Option<Entry>
    requires op.GetOp? && |shards| == SHARDS
  {
    HitIn(shards[Home(s, op.key)], op.key, op.now)
  }

  /** What was just put is hit until it expires, and from then on missed. */
  lemma PutThenHit(s: Setup, ops: seq<Op>, states: seq<seq<Shard>>, i: nat, now: int)
    requires IsRun(s, ops, states) && i < |ops| && ops[i].PutOp?
    ensures |states[i + 1]| == SHARDS
    ensures HitAt(s, states[i + 1], GetOp(ops[i].key, now)) ==
            if now < ops[i].entry.expiresAt then Some(Served(StoredAs(ops[i].entry, s.maxRecords), now)) else None
  {
    hide Served, CapRecords, Evicts;
    assert Step(s, states[i], ops[i], states[i + 1]);
    var h := Home(s, ops[i].key);
    PutsKeeps(states[i][h], PerShard(s.size), ops[i].key, Value(s, ops[i]), ops[i].wall, states[i + 1][h]);
    StoredKeeps(ops[i].entry, s.maxRecords);
  }

  ghost predicate AgedHit(hit: Entry, c: Config, resp: Response, at: int, now: int) {
    && now < at + Lifetime(c, resp.sections)
    && Aged(hit.answer, resp.sections.answers, now - at) && Aged(hit.authority, resp.sections.authority, now - at)
  }

  /** A hit is the last entry stored under its key, trimmed, not yet expired; and if that entry was
      built from a response, every answer and authority record is aged by the time since then. */
  lemma HitMeaning(s: Setup, ops: seq<Op>, states: seq<seq<Shard>>, i: nat) returns (j: nat)
    requires IsRun(s, ops, states) && i < |ops| && ops[i].GetOp?
    requires |states[i]| == SHARDS && HitAt(s, states[i], ops[i]).Some?
    ensures LastPut(ops, i, ops[i].key, j)
    ensures HitAt(s, states[i], ops[i]).value == Served(Value(s, ops[j]), ops[i].now) && ops[i].now < ops[j].entry.expiresAt
    ensures forall c, qname, resp, at ::
              && ops[j].entry == EntryFrom(c, qname, resp, at)
              && WireTTLs(resp.sections.answers) && WireTTLs(resp.sections.authority)
              ==> AgedHit(HitAt(s, states[i], ops[i]).value, c, resp, at, ops[i].now)
  {
    hide Step, EntryFrom, Served, Aged, Lifetime, StoredAs, WireTTLs;
    var k := ops[i].key;
    ReachableShards(s, ops, states, i, Home(s, k));
    var e := states[i][Home(s, k)][k];
    assert HoldsLast(s, ops, i, k, e);
    j :| LastPut(ops, i, k, j) && e == Value(s, ops[j]);
    StoredKeeps(ops[j].entry, s.maxRecords);
    forall c, qname, resp, at |
      && ops[j].entry == EntryFrom(c, qname, resp, at)
      && WireTTLs(resp.sections.answers) && WireTTLs(resp.sections.authority)
      ensures AgedHit(Served(e, ops[i].now), c, resp, at, ops[i].now)
    {
      HitIsAged(c, qname, resp, s.maxRecords, at, ops[i].now);
    }
  }
}
