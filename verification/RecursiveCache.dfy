/** The recursive resolver's cache: how long an entry lives, how it is stored in shards, and what a
    hit serves. */
module RecursiveCache {
  import opened Names
  import opened Records
  import opened Bailiwick
  import opened CnameChase
  import opened Shards

  // ----- the lifetime of an entry -----

  const FLOOR: int := 60 * SECOND

  /** The smallest TTL, starting from `smallest`, where a negative value means none yet. */
  function MinFrom(recs: seq<Record>, smallest: int): int {
    if recs == [] then smallest
    else
      var before := MinFrom(recs[..|recs| - 1], smallest);
      var ttl := recs[|recs| - 1].ttl;
      if before < 0 || ttl < before then ttl else before
  }

  function MinTTL(answers: seq<Record>, authority: seq<Record>): int {
    var smallest := MinFrom(authority, MinFrom(answers, -1));
    if smallest < 0 then FLOOR else smallest
  }

  method MinOver(recs: seq<Record>, start: int) returns (smallest: int)
    ensures smallest == MinFrom(recs, start)
  {
    smallest := start;
    for i := 0 to |recs|
      invariant smallest == MinFrom(recs[..i], start)
    {
      assert recs[..i + 1][..i] == recs[..i];
      if smallest < 0 || recs[i].ttl < smallest {
        smallest := recs[i].ttl;
      }
    }
    assert recs[..|recs|] == recs;
  }

  function SoaBound(r: Record): int
    requires r.rdata.SoaData?
  {
    if r.ttl < r.rdata.soa.minimum then r.ttl else r.rdata.soa.minimum
  }

  function NegativeTTL(authority: seq<Record>): int {
    match FirstSoa(authority)
    case None => 0
    case Some(r) => SoaBound(r)
  }

  method FindNegativeTTL(authority: seq<Record>) returns (ttl: int)
    ensures ttl == NegativeTTL(authority)
  {
    for i := 0 to |authority|
      invariant FirstSoa(authority) == FirstSoa(authority[i..])
    {
      assert authority[i..][1..] == authority[i + 1..];
      if authority[i].rdata.SoaData? {
        var r := authority[i];
        return if r.ttl < r.rdata.soa.minimum then r.ttl else r.rdata.soa.minimum;
      }
    }
    return 0;
  }

  datatype Config = Config(maxPositive: int, maxNegative: int, validating: bool)

  datatype Response = Response(sections: Sections, rcode: nat, aa: bool, ad: bool)

  function Capped(ttl: int, cap: int): int {
    if cap > 0 && ttl > cap then cap else ttl
  }

  function Lifetime(c: Config, m: Sections): int {
    var ttl := MinTTL(m.answers, m.authority);
    if m.answers == [] then
      var neg := NegativeTTL(m.authority);
      Capped(if 0 < neg < ttl then neg else ttl, c.maxNegative)
    else Capped(ttl, c.maxPositive)
  }

  function EntryFrom(c: Config, qname: Name, resp: Response, now: int): Entry {
    var kept := RecursiveFilter(qname, resp.sections);
    Entry(kept.answers, kept.authority, kept.additional, resp.rcode, resp.aa, c.validating && resp.ad,
          now + Lifetime(c, resp.sections))
  }

  method BuildEntry(c: Config, qname: Name, resp: Response, now: int) returns (e: Entry)
    ensures e == EntryFrom(c, qname, resp, now)
  {
    hide MinFrom, RecursiveFilter, FirstSoa;
    var m := resp.sections;
    var smallest := MinOver(m.answers, -1);
    smallest := MinOver(m.authority, smallest);
    var ttl := if smallest < 0 then FLOOR else smallest;
    if m.answers == [] {
      var neg := FindNegativeTTL(m.authority);
      if neg > 0 && neg < ttl {
        ttl := neg;
      }
      if c.maxNegative > 0 && ttl > c.maxNegative {
        ttl := c.maxNegative;
      }
    } else if c.maxPositive > 0 && ttl > c.maxPositive {
      ttl := c.maxPositive;
    }
    var kept := FilterRecursive(qname, m);
    return Entry(kept.answers, kept.authority, kept.additional, resp.rcode, resp.aa, c.validating && resp.ad, now + ttl);
  }

  // ----- storing and serving -----

  function Min(a: nat, b: nat): nat {
    if a < b then a else b
  }

  /** At most `limit` records: additional records go first, then authority, then answers. */
  function CapRecords(e: Entry, limit: nat): Entry {
    var total := |e.answer| + |e.authority| + |e.additional|;
    if total <= limit then e
    else
      var trim := total - limit;
      var a := Min(|e.additional|, trim);
      var b := Min(|e.authority|, trim - a);
      var c := Min(|e.answer|, trim - a - b);
      e.(additional := e.additional[..|e.additional| - a],
         authority := e.authority[..|e.authority| - b],
         answer := e.answer[..|e.answer| - c])
  }

  method TrimRecords(e: Entry, limit: nat) returns (r: Entry)
    ensures r == CapRecords(e, limit)
  {
    r := e;
    var total := |e.answer| + |e.authority| + |e.additional|;
    if total <= limit {
      return;
    }
    var trim := total - limit;
    var drop := if |r.additional| < trim then |r.additional| else trim;
    r := r.(additional := r.additional[..|r.additional| - drop]);
    trim := trim - drop;
    drop := if |r.authority| < trim then |r.authority| else trim;
    r := r.(authority := r.authority[..|r.authority| - drop]);
    trim := trim - drop;
    drop := if |r.answer| < trim then |r.answer| else trim;
    r := r.(answer := r.answer[..|r.answer| - drop]);
  }

  function StoredAs(e: Entry, maxRecords: int): Entry {
    if maxRecords > 0 then CapRecords(e, maxRecords) else e
  }

  function Remaining(recs: seq<Record>, ttl: int): (r: seq<Record>)
    ensures |r| == |recs| && forall i :: 0 <= i < |r| ==> r[i] == recs[i].(ttl := ttl)
  {
    seq(|recs|, i requires 0 <= i < |recs| => recs[i].(ttl := ttl))
  }

  /** A hit shows the time left on the entry as the TTL of every record. */
  function Served(e: Entry, now: int): Entry {
    var left := e.expiresAt - now;
    e.(answer := Remaining(e.answer, left), authority := Remaining(e.authority, left), additional := Remaining(e.additional, left))
  }

  datatype Key = Key(name: Name, cls: uint16, kind: uint16)

  type Shard = map<Key, Entry>

  function HomeOf(shardOf: Key -> nat, k: Key): (i: nat)
    ensures i < SHARDS
  {
    shardOf(k) % SHARDS
  }

  function Unexpired(m: Shard, now: int): Shard {
    map k | k in m && m[k].expiresAt > now :: m[k]
  }

  ghost predicate SoonestKey(m: Shard, k: Key) {
    k in m && forall j :: j in m ==> m[k].expiresAt <= m[j].expiresAt
  }

  /** Expired entries go; if that is not enough, one that expires soonest goes too. */
  ghost predicate Evicts(m: Shard, cap: nat, now: int, after: Shard) {
    var live := Unexpired(m, now);
    if |live| < cap then after == live
    else if live == map[] then after == live
    else exists k :: SoonestKey(live, k) && after == live - {k}
  }

  /** One store into a shard, `now` being the wall clock of the eviction. */
  ghost predicate Puts(m: Shard, cap: nat, k: Key, e: Entry, now: int, after: Shard) {
    if k !in m && cap > 0 && |m| >= cap then exists room :: Evicts(m, cap, now, room) && after == room[k := e]
    else after == m[k := e]
  }

  /** An entry is found until it expires. */
  function HitIn(m: Shard, k: Key, now: int): Option<Entry> {
    if k in m && m[k].expiresAt > now then Some(Served(m[k], now)) else None
  }

  class MemoryCache {
    var shards: seq<Shard>
    const cap: nat
    const maxRecords: int
    const shardOf: Key -> nat

    ghost predicate Valid()
      reads this
    {
      |shards| == SHARDS
    }

    constructor (n: int, maxRecords: int, shardOf: Key -> nat)
      ensures Valid() && cap == PerShard(n) && this.maxRecords == maxRecords && this.shardOf == shardOf
      ensures forall i :: 0 <= i < SHARDS ==> shards[i] == map[]
    {
      shards := seq(SHARDS, i => map[]);
      cap := PerShard(n);
      this.maxRecords := maxRecords;
      this.shardOf := shardOf;
    }

    method FindSoonest(m: Shard) returns (k: Key)
      requires m != map[]
      ensures SoonestKey(m, k)
    {
      k :| k in m;
      var todo := m.Keys - {k};
      while todo != {}
        invariant k in m && todo <= m.Keys
        invariant forall j :: j in m && j !in todo ==> m[k].expiresAt <= m[j].expiresAt
        decreases |todo|
      {
        var j :| j in todo;
        if m[j].expiresAt < m[k].expiresAt {
          k := j;
        }
        todo := todo - {j};
      }
    }

    method DropExpired(m: Shard, now: int) returns (live: Shard)
      ensures live == Unexpired(m, now)
    {
      live := m;
      var todo := m.Keys;
      while todo != {}
        invariant todo <= m.Keys
        invariant forall k :: k in live ==> k in m && live[k] == m[k]
        invariant forall k :: k in todo ==> k in live
        invariant forall k :: k in m && k !in todo ==> (k in live <==> m[k].expiresAt > now)
        decreases |todo|
      {
        var k :| k in todo;
        if m[k].expiresAt <= now {
          live := live - {k};
        }
        todo := todo - {k};
      }
      assert live == Unexpired(m, now);
    }

    method Evict(m: Shard, now: int) returns (after: Shard)
      requires cap > 0
      ensures Evicts(m, cap, now, after)
    {
      after := DropExpired(m, now);
      if |after| >= cap {
        var k := FindSoonest(after);
        after := after - {k};
      }
    }

    method Put(k: Key, e: Entry, now: int)
      requires Valid()
      modifies this
      ensures Valid() && Puts(old(shards)[HomeOf(shardOf, k)], cap, k, StoredAs(e, maxRecords), now, shards[HomeOf(shardOf, k)])
      ensures forall i :: 0 <= i < SHARDS && i != HomeOf(shardOf, k) ==> shards[i] == old(shards)[i]
    {
      hide Evicts, CapRecords;
      var stored := e;
      if maxRecords > 0 {
        stored := TrimRecords(e, maxRecords);
      }
      var i := HomeOf(shardOf, k);
      var m := shards[i];
      if k !in m && cap > 0 && |m| >= cap {
        m := Evict(m, now);
      }
      m := m[k := stored];
      shards := shards[i := m];
    }

    /** The read half of a lookup. */
    method Peek(k: Key, now: int) returns (hit: Option<Entry>)
      requires Valid()
      ensures hit == HitIn(shards[HomeOf(shardOf, k)], k, now)
    {
      var m := shards[HomeOf(shardOf, k)];
      if k !in m {
        return None;
      }
      var left := m[k].expiresAt - now;
      return if left <= 0 then None else Some(Served(m[k], now));
    }

    /** The write half, entered only after an expired entry was seen: it looks again, because the
        entry may have been replaced in between. */
    method Reap(k: Key, now: int)
      requires Valid()
      modifies this
      ensures Valid() && shards[HomeOf(shardOf, k)] == Reaped(old(shards)[HomeOf(shardOf, k)], k, now)
      ensures forall i :: 0 <= i < SHARDS && i != HomeOf(shardOf, k) ==> shards[i] == old(shards)[i]
    {
      var i := HomeOf(shardOf, k);
      var m := shards[i];
      if k in m && m[k].expiresAt <= now {
        shards := shards[i := m - {k}];
      }
    }

    /** A lookup that is not interrupted between its two halves. */
    method Get(k: Key, now: int) returns (hit: Option<Entry>)
      requires Valid()
      modifies this
      ensures Valid()
      ensures hit == HitIn(old(shards)[HomeOf(shardOf, k)], k, now)
      ensures shards[HomeOf(shardOf, k)] == Reaped(old(shards)[HomeOf(shardOf, k)], k, now)
      ensures forall i :: 0 <= i < SHARDS && i != HomeOf(shardOf, k) ==> shards[i] == old(shards)[i]
    {
      hit := Peek(k, now);
      if hit.None? && k in shards[HomeOf(shardOf, k)] {
        Reap(k, now);
      }
    }
  }

  function Reaped(m: Shard, k: Key, now: int): Shard {
    if k in m && m[k].expiresAt <= now then m - {k} else m
  }
}
