/** The hash chain of a zone, the hash of a name, and what an insertion leaves in the index. */
module Nsec3Chain {
  import opened Names
  import opened Records
  import opened WireDecode
  import opened Nsec3

  // ----- the chain of hashes -----

  /** Each entry leads to the next one, and the last to the first. */
  ghost predicate Ring(entries: seq<Entry>) {
    forall i :: 0 <= i < |entries| ==> entries[i].nextHash == entries[if i + 1 < |entries| then i + 1 else 0].ownerHash
  }

  ghost predicate CoveredBy(entries: seq<Entry>, i: nat, x: Hash) {
    i < |entries| && IntervalContains(entries[i].ownerHash, entries[i].nextHash, x)
  }

  /** The interval a hash that is no owner falls into. */
  function Before(entries: seq<Entry>, p: nat): nat
    requires entries != [] && p <= |entries|
  {
    if p == 0 then |entries| - 1 else p - 1
  }

  lemma OrderedAt(entries: seq<Entry>, i: nat, x: Hash)
    requires Sorted(entries) && i < |entries|
    ensures i < Position(entries, x) <==> BytesLess(entries[i].ownerHash, x)
    ensures entries[i].ownerHash != x && i >= Position(entries, x) ==> BytesLess(x, entries[i].ownerHash)
    ensures entries[i].ownerHash == x ==> i >= Position(entries, x) && !BytesLess(x, entries[i].ownerHash)
  {
    hide BytesLess, Search, Sorted;
    SearchSplits(entries, x, 0, |entries|);
    LessTotal(entries[i].ownerHash, x);
  }

  lemma CoverAt(entries: seq<Entry>, i: nat, x: Hash)
    requires Sorted(entries) && Ring(entries) && i < |entries| && forall e :: e in entries ==> e.ownerHash != x
    ensures CoveredBy(entries, i, x) <==> i == Before(entries, Position(entries, x))
  {
    hide BytesLess, Position;
    var n := |entries|;
    var j := if i + 1 < n then i + 1 else 0;
    assert entries[i] in entries && entries[j] in entries;
    OrderedAt(entries, i, x);
    OrderedAt(entries, j, x);
    LessTotal(entries[i].ownerHash, entries[j].ownerHash);
    LessTotal(entries[i].ownerHash, x);
    LessTotal(entries[j].ownerHash, x);
    if i + 1 < n {
      assert BytesLess(entries[i].ownerHash, entries[j].ownerHash);
    } else if n > 1 {
      assert BytesLess(entries[0].ownerHash, entries[i].ownerHash);
    }
  }

  lemma OwnerUncovered(entries: seq<Entry>, i: nat, x: Hash)
    requires Sorted(entries) && Ring(entries) && i < |entries| && exists e :: e in entries && e.ownerHash == x
    ensures !CoveredBy(entries, i, x)
  {
    hide BytesLess, Position;
    var n := |entries|;
    var j := if i + 1 < n then i + 1 else 0;
    var e :| e in entries && e.ownerHash == x;
    var k :| 0 <= k < n && entries[k] == e;
    OrderedAt(entries, i, x);
    OrderedAt(entries, j, x);
    OrderedAt(entries, k, x);
    LessTotal(entries[i].ownerHash, entries[j].ownerHash);
    LessTotal(entries[i].ownerHash, x);
    LessTotal(entries[j].ownerHash, x);
    if i + 1 < n {
      assert BytesLess(entries[i].ownerHash, entries[j].ownerHash);
      if i < k && j < k {
        assert BytesLess(entries[j].ownerHash, x);
      } else if k < i {
        assert BytesLess(x, entries[i].ownerHash);
      }
    } else {
      if k < i {
        assert BytesLess(x, entries[i].ownerHash);
      }
      if 0 < k {
        assert BytesLess(entries[0].ownerHash, x);
      }
      if n > 1 {
        assert BytesLess(entries[0].ownerHash, entries[i].ownerHash);
      }
    }
  }

  /** On the complete chain of a zone a hash is an owner, or lies in exactly one interval. */
  lemma RingCovers(entries: seq<Entry>, x: Hash)
    requires Sorted(entries) && Ring(entries) && entries != []
    ensures (exists e :: e in entries && e.ownerHash == x) <==> forall i: nat :: !CoveredBy(entries, i, x)
    ensures forall i: nat, j: nat :: CoveredBy(entries, i, x) && CoveredBy(entries, j, x) ==> i == j
  {
    hide Sorted, Ring, IntervalContains, Position;
    if exists e :: e in entries && e.ownerHash == x {
      forall i: nat | i < |entries|
        ensures !CoveredBy(entries, i, x)
      {
        OwnerUncovered(entries, i, x);
      }
    } else {
      forall i: nat | i < |entries|
        ensures CoveredBy(entries, i, x) <==> i == Before(entries, Position(entries, x))
      {
        CoverAt(entries, i, x);
      }
      assert CoveredBy(entries, Before(entries, Position(entries, x)), x);
    }
  }

  // ----- the hash of a name -----

  /** Section 5 of RFC 5155: the wire form and the salt are hashed, and then the result and the salt, as
      often as the parameters say; other algorithms and more than 100 rounds are refused. */
  lemma HashExactly(sha1: Bytes -> Hash, name: Name, p: Params)
    ensures HashOf(sha1, name, p).Some? <==> p.alg == 1 && p.iterations <= 100
    ensures p.alg == 1 && p.iterations == 0 ==> HashOf(sha1, name, p) == Some(sha1(Wire(name) + p.salt))
    ensures p.alg == 1 && 0 < p.iterations <= 100 ==>
              var less := HashOf(sha1, name, p.(iterations := p.iterations - 1));
              less.Some? && HashOf(sha1, name, p) == Some(sha1(less.value + p.salt))
  {
  }

  /** The next closer name is the ancestor one label longer. */
  lemma {:induction false} NextCloserExactly(q: Name, k: nat, n: Name)
    ensures OneLabelLonger(q, k) == Some(n) <==> AtOrBelow(q, n) && Depth(n) == k + 1
  {
    if Depth(q) > k + 1 {
      NextCloserExactly(q.parent, k, n);
    } else if AtOrBelow(q, n) {
      AtOrBelowDepth(q, n);
    }
  }

  // ----- what an insertion leaves -----

  ghost predicate In(zones: ZoneTable, k: Name, x: Entry) {
    k in zones && x in zones[k].entries
  }

  /** Why an entry of the index may be gone after an insertion of `e` under `key`. */
  ghost predicate MayGo(zones: ZoneTable, key: Name, params: Params, e: Entry, now: int, after: ZoneTable, k: Name, x: Entry) {
    || (k == key && k in zones && zones[k].params != params)
    || (k == key && x.ownerHash == e.ownerHash)
    || x.expiresAt <= now
    || forall n, y :: In(after, n, y) && y != e ==> x.expiresAt <= y.expiresAt
  }

  lemma SweptIn(zones: ZoneTable, now: int, k: Name, x: Entry)
    ensures In(Swept(zones, now), k, x) <==> In(zones, k, x) && x.expiresAt > now
  {
    hide Filter;
    if k in zones {
      FilterMember(zones[k].entries, Live(now));
      if In(zones, k, x) && x.expiresAt > now {
        assert x in LiveEntries(zones[k].entries, now);
      }
    }
  }

  lemma RemovedOthers(entries: seq<Entry>, j: nat, x: Entry)
    requires j < |entries| && x in entries && x != entries[j]
    ensures x in Removed(entries, j)
  {
    var i :| 0 <= i < |entries| && entries[i] == x;
    if i < j {
      assert Removed(entries, j)[i] == x;
    } else {
      assert Removed(entries, j)[i - 1] == x;
    }
  }

  lemma EvictedIn(zones: ZoneTable, after: ZoneTable, k: Name, x: Entry)
    requires Evicts(zones, after)
    ensures In(after, k, x) ==> In(zones, k, x)
    ensures In(zones, k, x) && !In(after, k, x) ==> forall n, y :: In(zones, n, y) ==> x.expiresAt <= y.expiresAt
  {
    if !NoEntries(zones) {
      var n: Name, j: nat :| Soonest(zones, n, j) && after == Without(zones, n, j);
      if In(zones, k, x) && k == n && x != zones[n].entries[j] {
        RemovedOthers(zones[n].entries, j, x);
      }
    }
  }

  lemma StoredIn(zones: ZoneTable, key: Name, i: nat, e: Entry, k: Name, x: Entry)
    requires key in zones && i <= |zones[key].entries|
    ensures In(WithEntryAt(zones, key, i, e), k, x) <==> In(zones, k, x) || (k == key && x == e)
  {
  }

  lemma AddConserves(
    zones: ZoneTable, maxLen: nat, key: Name, params: Params, e: Entry, now: int, after: ZoneTable, out: Outcome, k: Name, x: Entry)
    requires key in zones && Adds(zones, maxLen, key, params, e, now, after, out)
    ensures In(after, k, x) ==> In(zones, k, x) || (k == key && x == e)
    ensures In(zones, k, x) && !In(after, k, x) ==>
              x.expiresAt <= now || forall n, y :: In(after, n, y) && y != e ==> x.expiresAt <= y.expiresAt
  {
    hide Total, Position, Swept, WithEntryAt, Evicts, In;
    var swept := if AtCap(zones, maxLen) then Swept(zones, now) else zones;
    SweptIn(zones, now, k, x);
    if AtCap(swept, maxLen) {
      var evicted :| Evicts(swept, evicted) && after == StoreFresh(evicted, key, params, e);
      EvictedIn(swept, evicted, k, x);
      FreshIn(evicted, key, params, e, k, x);
      forall n, y | In(after, n, y) && y != e
        ensures In(swept, n, y)
      {
        FreshIn(evicted, key, params, e, n, y);
        EvictedIn(swept, evicted, n, y);
      }
    } else {
      StoreAtIn(swept, key, Position(zones[key].entries, e.ownerHash), e, k, x);
    }
  }

  lemma StoreAtIn(zones: ZoneTable, key: Name, i: nat, e: Entry, k: Name, x: Entry)
    ensures var (after, out) := StoreAt(zones, key, i, e);
            (In(zones, k, x) ==> In(after, k, x)) && (In(after, k, x) ==> In(zones, k, x) || (k == key && x == e))
  {
    hide In, WithEntryAt;
    if key in zones && i <= |zones[key].entries| {
      StoredIn(zones, key, i, e, k, x);
    }
  }

  lemma FreshIn(zones: ZoneTable, key: Name, params: Params, e: Entry, k: Name, x: Entry)
    ensures In(StoreFresh(zones, key, params, e), k, x) <==> In(zones, k, x) || (k == key && x == e)
  {
    hide Position, WithEntryAt;
    var z := if key in zones then zones else zones[key := ZoneEntries(params, [])];
    StoredIn(z, key, Position(z[key].entries, e.ownerHash), e, k, x);
  }

  lemma ReplacedIn(zones: ZoneTable, key: Name, i: nat, e: Entry, k: Name, x: Entry)
    requires key in zones && i < |zones[key].entries| && zones[key].entries[i].ownerHash == e.ownerHash
    ensures var after := zones[key := zones[key].(entries := zones[key].entries[i := e])];
            && (In(after, k, x) ==> In(zones, k, x) || (k == key && x == e))
            && (In(zones, k, x) && !In(after, k, x) ==> k == key && x.ownerHash == e.ownerHash)
  {
    var entries := zones[key].entries;
    if k == key && x in entries {
      var j :| 0 <= j < |entries| && entries[j] == x;
      if j != i {
        assert entries[i := e][j] == x;
      }
    }
  }

  /** An insertion brings in nothing but its own entry.  What it takes out had other parameters, had the
      same owner, was expired, or expired no later than all that stays. */
  lemma InsertConserves(
    zones: ZoneTable, maxLen: nat, key: Name, params: Params, e: Entry, now: int, after: ZoneTable, out: Outcome, k: Name, x: Entry)
    requires Inserts(zones, maxLen, key, params, e, now, after, out)
    ensures In(after, k, x) ==> In(zones, k, x) || (k == key && x == e)
    ensures In(zones, k, x) && !In(after, k, x) ==> MayGo(zones, key, params, e, now, after, k, x)
    ensures !(params.alg == 1 && params.iterations <= 100) ==> after == zones
  {
    hide Total, Position, Adds;
    if Usable(params) {
      var z := WithZone(zones, key, params);
      var i := Position(z[key].entries, e.ownerHash);
      if FoundAt(z[key].entries, e.ownerHash, i) {
        ReplacedIn(z, key, i, e, k, x);
      } else {
        AddConserves(z, maxLen, key, params, e, now, after, out, k, x);
      }
    }
  }
}
