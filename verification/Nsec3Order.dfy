/** The order of the entries in a bucket, on which finding them again depends: which insertions keep
    it, and one that does not. */
module Nsec3Order {
  import opened Names
  import opened Records
  import opened Nsec3
  import opened Nsec3Index
  import opened Nsec3Laws

  ghost predicate AllSorted(zones: ZoneTable) {
    forall k :: k in zones ==> Sorted(zones[k].entries)
  }

  // ----- one bucket -----

  lemma {:induction false} LiveSorted(entries: seq<Entry>, now: int)
    requires Sorted(entries)
    ensures Sorted(LiveEntries(entries, now))
  {
    hide BytesLess;
    if entries != [] {
      var init, last := entries[..|entries| - 1], entries[|entries| - 1];
      LiveSorted(init, now);
      FilterMember(init, Live(now));
      forall e | e in LiveEntries(init, now)
        ensures BytesLess(e.ownerHash, last.ownerHash)
      {
        var i :| 0 <= i < |init| && init[i] == e;
      }
    }
  }

  lemma RemovedSorted(entries: seq<Entry>, i: nat)
    requires Sorted(entries) && i < |entries|
    ensures Sorted(Removed(entries, i))
  {
    hide BytesLess;
    var r := Removed(entries, i);
    assert forall j :: 0 <= j < |r| ==> r[j] == entries[if j < i then j else j + 1];
  }

  lemma ReplacedSorted(entries: seq<Entry>, i: nat, e: Entry)
    requires Sorted(entries) && FoundAt(entries, e.ownerHash, i)
    ensures Sorted(entries[i := e])
  {
    hide BytesLess;
  }

  /** The searched position splits the entries into smaller and larger ones. */
  lemma PositionSplits(entries: seq<Entry>, h: Hash)
    requires Sorted(entries) && !FoundAt(entries, h, Position(entries, h))
    ensures var p := Position(entries, h);
            && (forall i :: 0 <= i < p ==> BytesLess(entries[i].ownerHash, h))
            && forall i :: p <= i < |entries| ==> BytesLess(h, entries[i].ownerHash)
  {
    hide BytesLess, Search;
    var p := Position(entries, h);
    SearchSplits(entries, h, 0, |entries|);
    SearchFinds(entries, h);
    forall i | p <= i < |entries|
      ensures BytesLess(h, entries[i].ownerHash)
    {
      assert entries[i] in entries;
      LessTotal(h, entries[i].ownerHash);
    }
  }

  lemma InsertedAt(entries: seq<Entry>, i: nat, e: Entry, j: nat)
    requires i <= |entries| && j <= |entries|
    ensures Inserted(entries, i, e)[j] == if j < i then entries[j] else if j == i then e else entries[j - 1]
  {
  }

  /** A new entry keeps the order exactly at the searched position. */
  lemma InsertedSorted(entries: seq<Entry>, i: nat, e: Entry)
    requires Sorted(entries) && i <= |entries| && !FoundAt(entries, e.ownerHash, Position(entries, e.ownerHash))
    ensures Sorted(Inserted(entries, i, e)) <==> i == Position(entries, e.ownerHash)
  {
    hide BytesLess, Position, Inserted;
    var p, r := Position(entries, e.ownerHash), Inserted(entries, i, e);
    PositionSplits(entries, e.ownerHash);
    if i == p {
      forall a, b | 0 <= a < b < |r|
        ensures BytesLess(r[a].ownerHash, r[b].ownerHash)
      {
        InsertedAt(entries, i, e, a);
        InsertedAt(entries, i, e, b);
      }
    } else {
      var a, b := if i < p then i else p, if i < p then p else i;
      InsertedAt(entries, i, e, a);
      InsertedAt(entries, i, e, b);
      LessTotal(r[a].ownerHash, r[b].ownerHash);
    }
  }

  // ----- the index -----

  lemma SweptSorted(zones: ZoneTable, now: int)
    requires AllSorted(zones)
    ensures AllSorted(Swept(zones, now))
  {
    hide Sorted;
    forall k | k in Swept(zones, now)
      ensures Sorted(Swept(zones, now)[k].entries)
    {
      LiveSorted(zones[k].entries, now);
    }
  }

  lemma EvictedSorted(zones: ZoneTable, after: ZoneTable)
    requires AllSorted(zones) && Evicts(zones, after)
    ensures AllSorted(after)
  {
    hide Sorted;
    if !NoEntries(zones) {
      var k, j :| Soonest(zones, k, j) && after == Without(zones, k, j);
      RemovedSorted(zones[k].entries, j);
    }
  }

  lemma OneBucketSorted(zones: ZoneTable, key: Name, z: ZoneEntries)
    requires AllSorted(zones)
    ensures AllSorted(zones[key := z]) <==> Sorted(z.entries)
  {
    hide Sorted;
    assert key in zones[key := z];
  }

  lemma FreshSorted(zones: ZoneTable, key: Name, params: Params, e: Entry)
    requires AllSorted(zones)
    requires key in zones ==> !FoundAt(zones[key].entries, e.ownerHash, Position(zones[key].entries, e.ownerHash))
    ensures AllSorted(StoreFresh(zones, key, params, e))
  {
    hide Sorted, Position, Inserted;
    NothingSorted();
    var z := if key in zones then zones else zones[key := ZoneEntries(params, [])];
    OneBucketSorted(zones, key, z[key]);
    var i := Position(z[key].entries, e.ownerHash);
    InsertedSorted(z[key].entries, i, e);
    OneBucketSorted(z, key, z[key].(entries := Inserted(z[key].entries, i, e)));
  }

  lemma StoredSorted(zones: ZoneTable, key: Name, i: nat, e: Entry)
    requires AllSorted(zones) && key in zones && i <= |zones[key].entries|
    requires !FoundAt(zones[key].entries, e.ownerHash, Position(zones[key].entries, e.ownerHash))
    ensures AllSorted(WithEntryAt(zones, key, i, e)) <==> i == Position(zones[key].entries, e.ownerHash)
  {
    hide Sorted, Position, Inserted;
    InsertedSorted(zones[key].entries, i, e);
    OneBucketSorted(zones, key, zones[key].(entries := Inserted(zones[key].entries, i, e)));
  }

  lemma NothingSorted()
    ensures Sorted([])
  {
  }

  /** What is not among sorted entries is not found among fewer of them. */
  lemma NotFoundInFewer(all: seq<Entry>, some: seq<Entry>, h: Hash)
    requires Sorted(all) && Sorted(some) && forall e :: e in some ==> e in all
    requires !FoundAt(all, h, Position(all, h))
    ensures !FoundAt(some, h, Position(some, h))
  {
    hide Sorted, Position;
    SearchFinds(all, h);
    SearchFinds(some, h);
  }

  ghost predicate Fewer(zones: ZoneTable, after: ZoneTable, key: Name) {
    key in after ==> key in zones && forall e :: e in after[key].entries ==> e in zones[key].entries
  }

  lemma SweptFewer(zones: ZoneTable, now: int, key: Name)
    ensures Fewer(zones, Swept(zones, now), key)
  {
    if key in zones {
      FilterMember(zones[key].entries, Live(now));
    }
  }

  lemma EvictedFewer(zones: ZoneTable, after: ZoneTable, key: Name)
    requires Evicts(zones, after)
    ensures Fewer(zones, after, key)
  {
  }

  ghost predicate Absent(zones: ZoneTable, key: Name, h: Hash) {
    key in zones ==> !FoundAt(zones[key].entries, h, Position(zones[key].entries, h))
  }

  lemma FewerAbsent(zones: ZoneTable, after: ZoneTable, key: Name, h: Hash)
    requires AllSorted(zones) && AllSorted(after) && Fewer(zones, after, key) && Absent(zones, key, h)
    ensures Absent(after, key, h)
  {
    hide Sorted, Position;
    if key in after {
      NotFoundInFewer(zones[key].entries, after[key].entries, h);
    }
  }

  /** An expired entry with a smaller hash. */
  ghost predicate StaleBelow(entries: seq<Entry>, h: Hash, now: int) {
    exists e :: e in entries && e.expiresAt <= now && BytesLess(e.ownerHash, h)
  }

  /** The position splits sorted entries in only one place. */
  lemma SplitsThere(entries: seq<Entry>, h: Hash, k: nat)
    requires Sorted(entries) && k <= |entries|
    requires forall i :: 0 <= i < k ==> BytesLess(entries[i].ownerHash, h)
    requires forall i :: k <= i < |entries| ==> !BytesLess(entries[i].ownerHash, h)
    ensures Position(entries, h) == k
  {
    hide BytesLess, Search;
    var p := Position(entries, h);
    var least := if p < k then p else k;
    if least < |entries| {
      var smaller := BytesLess(entries[least].ownerHash, h);
      SearchSplits(entries, h, 0, |entries|);
    }
  }

  /** Sweeping moves the place of a hash down by the expired entries below it. */
  lemma LivePosition(entries: seq<Entry>, h: Hash, now: int)
    requires Sorted(entries)
    ensures Position(LiveEntries(entries, now), h) <= Position(entries, h)
    ensures Position(LiveEntries(entries, now), h) == Position(entries, h) <==> !StaleBelow(entries, h, now)
  {
    hide BytesLess, Search, Sorted, Filter;
    var p := Position(entries, h);
    var front, back := entries[..p], entries[p..];
    assert entries == front + back;
    FilterConcat(front, back, Live(now));
    FilterMember(front, Live(now));
    FilterMember(back, Live(now));
    SearchSplits(entries, h, 0, |entries|);
    LiveSorted(entries, now);
    var k := |Filter(front, Live(now))|;
    forall i | 0 <= i < k
      ensures BytesLess(LiveEntries(entries, now)[i].ownerHash, h)
    {
      assert Filter(front, Live(now))[i] in Filter(front, Live(now));
    }
    forall i | k <= i < |LiveEntries(entries, now)|
      ensures !BytesLess(LiveEntries(entries, now)[i].ownerHash, h)
    {
      assert Filter(back, Live(now))[i - k] in Filter(back, Live(now));
    }
    SplitsThere(LiveEntries(entries, now), h, k);
    FilterAll(front, Live(now));
    StaleInFront(entries, h, now);
  }

  lemma StaleInFront(entries: seq<Entry>, h: Hash, now: int)
    requires Sorted(entries)
    ensures StaleBelow(entries, h, now) <==> exists e :: e in entries[..Position(entries, h)] && e.expiresAt <= now
  {
    hide BytesLess, Search;
    var p := Position(entries, h);
    SearchSplits(entries, h, 0, |entries|);
    if StaleBelow(entries, h, now) {
      var e :| e in entries && e.expiresAt <= now && BytesLess(e.ownerHash, h);
      var i :| 0 <= i < |entries| && entries[i] == e;
      assert entries[..p][i] == e;
    }
  }

  /** The sweep made enough room and dropped an entry below the place of the new one, which still
      fits in behind. */
  ghost predicate Shifted(zones: ZoneTable, maxLen: nat, key: Name, h: Hash, now: int) {
    && AtCap(zones, maxLen) && !AtCap(Swept(zones, now), maxLen) && key in zones && key in Swept(zones, now)
    && Position(zones[key].entries, h) <= |Swept(zones, now)[key].entries|
    && StaleBelow(zones[key].entries, h, now)
  }

  lemma StoreAtSorted(zones: ZoneTable, key: Name, i: nat, e: Entry)
    requires AllSorted(zones) && Absent(zones, key, e.ownerHash)
    ensures StoreAt(zones, key, i, e).1 == Kept ==>
              (AllSorted(StoreAt(zones, key, i, e).0) <==> i == Position(zones[key].entries, e.ownerHash))
    ensures StoreAt(zones, key, i, e).1 != Kept ==> AllSorted(StoreAt(zones, key, i, e).0)
  {
    hide AllSorted, Position, WithEntryAt;
    if key in zones && i <= |zones[key].entries| {
      StoredSorted(zones, key, i, e);
    }
  }

  lemma AddsSorted(
    zones: ZoneTable, maxLen: nat, key: Name, params: Params, e: Entry, now: int, after: ZoneTable, out: Outcome)
    requires AllSorted(zones) && key in zones && Absent(zones, key, e.ownerHash)
    requires Adds(zones, maxLen, key, params, e, now, after, out)
    ensures AllSorted(after) <==> !Shifted(zones, maxLen, key, e.ownerHash, now)
  {
    hide AllSorted, Position, Swept, Evicts, AtCap, StoreFresh, Fewer, Absent, StaleBelow, WithEntryAt;
    var swept := if AtCap(zones, maxLen) then Swept(zones, now) else zones;
    SweptPosition(zones, key, e.ownerHash, now);
    SweptSorted(zones, now);
    SweptFewer(zones, now, key);
    FewerAbsent(zones, Swept(zones, now), key, e.ownerHash);
    if AtCap(swept, maxLen) {
      var evicted :| Evicts(swept, evicted) && after == StoreFresh(evicted, key, params, e);
      EvictedSorted(swept, evicted);
      EvictedFewer(swept, evicted, key);
      FewerAbsent(swept, evicted, key, e.ownerHash);
      AbsentFresh(evicted, key, params, e);
    } else {
      StoreAtSorted(swept, key, Position(zones[key].entries, e.ownerHash), e);
    }
  }

  lemma SweptPosition(zones: ZoneTable, key: Name, h: Hash, now: int)
    requires AllSorted(zones) && key in zones
    ensures key in Swept(zones, now) ==>
              (Position(Swept(zones, now)[key].entries, h) == Position(zones[key].entries, h) <==> !StaleBelow(zones[key].entries, h, now))
  {
    hide Sorted, Position, StaleBelow, LiveEntries;
    LivePosition(zones[key].entries, h, now);
  }

  lemma AbsentFresh(zones: ZoneTable, key: Name, params: Params, e: Entry)
    requires AllSorted(zones) && Absent(zones, key, e.ownerHash)
    ensures AllSorted(StoreFresh(zones, key, params, e))
  {
    hide AllSorted, Position, StoreFresh;
    FreshSorted(zones, key, params, e);
  }

  /** An insertion into sorted buckets keeps them sorted exactly unless it was shifted. */
  lemma InsertsSorted(
    zones: ZoneTable, maxLen: nat, key: Name, params: Params, e: Entry, now: int, after: ZoneTable, out: Outcome)
    requires AllSorted(zones) && Usable(params) && Inserts(zones, maxLen, key, params, e, now, after, out)
    ensures var z := WithZone(zones, key, params);
            AllSorted(after) <==> !(Absent(z, key, e.ownerHash) && Shifted(z, maxLen, key, e.ownerHash, now))
  {
    hide AllSorted, Position, Adds, Shifted, WithZone;
    var z := WithZone(zones, key, params);
    ZoneSorted(zones, key, params);
    var i := Position(z[key].entries, e.ownerHash);
    if FoundAt(z[key].entries, e.ownerHash, i) {
      FoundSorted(z, key, i, e);
    } else {
      AddsSorted(z, maxLen, key, params, e, now, after, out);
    }
  }

  lemma ZoneSorted(zones: ZoneTable, key: Name, params: Params)
    requires AllSorted(zones)
    ensures AllSorted(WithZone(zones, key, params))
  {
    hide Sorted;
    NothingSorted();
  }

  lemma FoundSorted(zones: ZoneTable, key: Name, i: nat, e: Entry)
    requires AllSorted(zones) && key in zones && FoundAt(zones[key].entries, e.ownerHash, i)
    ensures AllSorted(zones[key := zones[key].(entries := zones[key].entries[i := e])])
  {
    hide Sorted;
    ReplacedSorted(zones[key].entries, i, e);
    OneBucketSorted(zones, key, zones[key].(entries := zones[key].entries[i := e]));
  }

  // ----- insertions that go wrong -----

  /** A sweep that drops anything makes room in a full index. */
  lemma TotalSweptLess(zones: ZoneTable, now: int, k: Name, e: Entry)
    requires k in zones && e in zones[k].entries && e.expiresAt <= now
    ensures Total(Swept(zones, now)) < Total(zones)
  {
    hide Total, Filter;
    TotalWithout(zones, k);
    TotalSwept(zones - {k}, now);
    assert Swept(zones - {k}, now) == Swept(zones, now) - {k};
    FilterAll(zones[k].entries, Live(now));
    if k in Swept(zones, now) {
      TotalWithout(Swept(zones, now), k);
    } else {
      assert Swept(zones, now) - {k} == Swept(zones, now);
      assert |zones[k].entries| > 0;
    }
  }

  /** The index is full, the bucket holds an expired entry below the new hash. */
  ghost predicate FullAndStale(zones: ZoneTable, maxLen: nat, key: Name, params: Params, h: Hash, now: int) {
    && maxLen > 0 && Total(zones) == maxLen && key in zones && zones[key].params == params
    && Absent(zones, key, h) && StaleBelow(zones[key].entries, h, now)
  }

  lemma FullMakesRoom(zones: ZoneTable, maxLen: nat, key: Name, params: Params, h: Hash, now: int)
    requires FullAndStale(zones, maxLen, key, params, h, now)
    ensures WithZone(zones, key, params) == zones && AtCap(zones, maxLen) && !AtCap(Swept(zones, now), maxLen)
  {
    hide Total, Swept, BytesLess;
    var e :| e in zones[key].entries && e.expiresAt <= now && BytesLess(e.ownerHash, h);
    TotalSweptLess(zones, now, key, e);
  }

  /** Such an insertion always goes wrong, at any cap: it panics when too few entries are left, and
      otherwise leaves the bucket out of order. */
  lemma StaleInsertBreaks(
    zones: ZoneTable, maxLen: nat, key: Name, params: Params, e: Entry, now: int, after: ZoneTable, out: Outcome)
    requires AllSorted(zones) && Usable(params) && FullAndStale(zones, maxLen, key, params, e.ownerHash, now)
    requires Inserts(zones, maxLen, key, params, e, now, after, out)
    ensures if HeldBy(Swept(zones, now), key) < Position(zones[key].entries, e.ownerHash) then out == Panicked
            else out == Kept && !AllSorted(after)
  {
    hide AllSorted, Position, Swept, Total, AtCap, StaleBelow, Inserts, WithZone;
    FullMakesRoom(zones, maxLen, key, params, e.ownerHash, now);
    InsertsExactly(zones, maxLen, key, params, e, now, after, out);
    InsertsSorted(zones, maxLen, key, params, e, now, after, out);
    SmallerMeansLater(zones, key, e.ownerHash, now);
  }

  lemma SmallerMeansLater(zones: ZoneTable, key: Name, h: Hash, now: int)
    requires AllSorted(zones) && key in zones && StaleBelow(zones[key].entries, h, now)
    ensures Position(zones[key].entries, h) > 0
  {
    hide Sorted, Search;
    LivePosition(zones[key].entries, h, now);
  }

  // ----- at any cap, by inserting in order -----

  function Filled(other: Name, params: Params, filler: seq<Entry>): ZoneTable {
    if filler == [] then map[] else map[other := ZoneEntries(params, filler)]
  }

  lemma FilledTotal(other: Name, params: Params, filler: seq<Entry>)
    ensures Total(Filled(other, params, filler)) == |filler|
  {
    if filler != [] {
      var m := Filled(other, params, filler);
      TotalWithout(m, other);
      assert m - {other} == map[];
    }
  }

  lemma LastPlace(entries: seq<Entry>, e: Entry)
    requires Sorted(entries + [e])
    ensures Position(entries, e.ownerHash) == |entries| && Inserted(entries, |entries|, e) == entries + [e] && Sorted(entries)
  {
    hide BytesLess, Search;
    var all := entries + [e];
    assert forall i :: 0 <= i < |entries| ==> all[i] == entries[i];
    assert all[|entries|] == e;
    SplitsThere(entries, e.ownerHash, |entries|);
  }

  /** Entries that arrive in hash order below the cap line up. */
  lemma FillStep(maxLen: nat, other: Name, params: Params, filler: seq<Entry>, e: Entry, now: int)
    requires Usable(params) && Sorted(filler + [e]) && |filler| < maxLen
    ensures Inserts(Filled(other, params, filler), maxLen, other, params, e, now, Filled(other, params, filler + [e]), Kept)
  {
    hide Sorted, Position, Total, Evicts, Swept, Inserted;
    LastPlace(filler, e);
    FilledTotal(other, params, filler);
    var z := WithZone(Filled(other, params, filler), other, params);
    assert z == map[other := ZoneEntries(params, filler)];
    TotalOne(other, params, filler);
    assert WithEntryAt(z, other, |filler|, e) == Filled(other, params, filler + [e]);
  }

  lemma TotalOne(other: Name, params: Params, filler: seq<Entry>)
    ensures Total(map[other := ZoneEntries(params, filler)]) == |filler|
  {
    var m := map[other := ZoneEntries(params, filler)];
    TotalWithout(m, other);
    assert m - {other} == map[];
  }

  function FillOps(other: Name, params: Params, filler: seq<Entry>, now: int): (ops: seq<Op>)
    ensures |ops| == |filler| && forall i :: 0 <= i < |ops| ==> ops[i] == InsertOp(other, params, filler[i], now)
  {
    seq(|filler|, i requires 0 <= i < |filler| => InsertOp(other, params, filler[i], now))
  }

  function FillStates(other: Name, params: Params, filler: seq<Entry>): (states: seq<ZoneTable>)
    ensures |states| == |filler| + 1 && forall i :: 0 <= i < |states| ==> states[i] == Filled(other, params, filler[..i])
  {
    seq(|filler| + 1, i requires 0 <= i <= |filler| => Filled(other, params, filler[..i]))
  }

  lemma FillRun(maxLen: nat, other: Name, params: Params, filler: seq<Entry>, now: int)
    requires Usable(params) && Sorted(filler) && |filler| <= maxLen
    ensures IsRun(maxLen, FillOps(other, params, filler, now), FillStates(other, params, filler))
  {
    hide Filled, Inserts, Sorted;
    var ops, states := FillOps(other, params, filler, now), FillStates(other, params, filler);
    FirstFilled(other, params, filler);
    forall i | 0 <= i < |ops|
      ensures Step(maxLen, states[i], ops[i], states[i + 1])
    {
      assert filler[..i + 1] == filler[..i] + [filler[i]];
      SortedPrefix(filler, i + 1);
      FillStep(maxLen, other, params, filler[..i], filler[i], now);
    }
  }

  lemma FirstFilled(other: Name, params: Params, filler: seq<Entry>)
    ensures FillStates(other, params, filler)[0] == map[]
  {
    assert filler[..0] == [];
  }

  lemma SortedPrefix(entries: seq<Entry>, i: nat)
    requires Sorted(entries) && i <= |entries|
    ensures Sorted(entries[..i])
  {
    hide BytesLess;
  }

  /** At any cap: entries for one zone arrive in hash order until the index is full, the first of
      them expires, and an entry with a larger hash arrives while fewer are left than were smaller.
      The run exists, and that insertion can only panic. */
  lemma FullIndexPanics(maxLen: nat, zone: Name, params: Params, filler: seq<Entry>, e: Entry, at: int, now: int)
    requires Usable(params) && maxLen > 0 && |filler| == maxLen && Sorted(filler + [e]) && filler[0].expiresAt <= now
    ensures var ops, states := FillOps(zone, params, filler, at), FillStates(zone, params, filler);
            && IsRun(maxLen, ops, states)
            && forall after, out :: Inserts(states[maxLen], maxLen, zone, params, e, now, after, out) ==> out == Panicked
  {
    hide Sorted, Inserts, Total, Swept, Position, IsRun, Step;
    LastPlace(filler, e);
    FillRun(maxLen, zone, params, filler, at);
    FilledTotal(zone, params, filler);
    var zones := Filled(zone, params, filler);
    assert filler[..maxLen] == filler;
    assert FillStates(zone, params, filler)[maxLen] == zones;
    FirstBelow(filler, e, now);
    SweptShorter(zones, zone, now, filler[0]);
    OneSorted(zone, params, filler);
    forall after, out | Inserts(zones, maxLen, zone, params, e, now, after, out)
      ensures out == Panicked
    {
      StaleInsertBreaks(zones, maxLen, zone, params, e, now, after, out);
    }
  }

  lemma OneSorted(zone: Name, params: Params, filler: seq<Entry>)
    requires Sorted(filler)
    ensures AllSorted(Filled(zone, params, filler))
  {
    hide Sorted;
  }

  lemma FirstBelow(filler: seq<Entry>, e: Entry, now: int)
    requires filler != [] && Sorted(filler + [e]) && filler[0].expiresAt <= now
    ensures StaleBelow(filler, e.ownerHash, now)
  {
    hide BytesLess;
    var all := filler + [e];
    assert all[0] == filler[0] && all[|filler|] == e;
    assert filler[0] in filler;
  }

  lemma SweptShorter(zones: ZoneTable, key: Name, now: int, e: Entry)
    requires key in zones && e in zones[key].entries && e.expiresAt <= now
    ensures HeldBy(Swept(zones, now), key) < |zones[key].entries|
  {
    hide Filter;
    FilterAll(zones[key].entries, Live(now));
  }

  /** At any cap of two or more: the same with an entry that belongs right behind the expired first
      one.  The run exists, and that insertion always leaves the bucket out of order. */
  lemma FullIndexUnsorts(maxLen: nat, zone: Name, params: Params, filler: seq<Entry>, e: Entry, at: int, now: int)
    requires Usable(params) && maxLen > 1 && |filler| == maxLen && Sorted([filler[0], e] + filler[1..]) && Sorted(filler)
    requires filler[0].expiresAt <= now && forall x :: x in filler[1..] ==> x.expiresAt > now
    ensures var ops, states := FillOps(zone, params, filler, at), FillStates(zone, params, filler);
            && IsRun(maxLen, ops, states)
            && forall after, out :: Inserts(states[maxLen], maxLen, zone, params, e, now, after, out) ==>
                 out == Kept && !AllSorted(after)
  {
    hide Sorted, Inserts, Total, Swept, Position, IsRun, Step;
    FillRun(maxLen, zone, params, filler, at);
    FilledTotal(zone, params, filler);
    var zones := Filled(zone, params, filler);
    assert filler[..maxLen] == filler;
    assert FillStates(zone, params, filler)[maxLen] == zones;
    BehindFirst(filler, e);
    SecondBelow(filler, e, now);
    RestHeld(zone, params, filler, now);
    OneSorted(zone, params, filler);
    forall after, out | Inserts(zones, maxLen, zone, params, e, now, after, out)
      ensures out == Kept && !AllSorted(after)
    {
      StaleInsertBreaks(zones, maxLen, zone, params, e, now, after, out);
    }
  }

  lemma BehindFirst(filler: seq<Entry>, e: Entry)
    requires |filler| > 1 && Sorted(filler) && Sorted([filler[0], e] + filler[1..])
    ensures Position(filler, e.ownerHash) == 1 && !FoundAt(filler, e.ownerHash, 1)
  {
    hide BytesLess, Search;
    var all := [filler[0], e] + filler[1..];
    assert all[0] == filler[0] && all[1] == e;
    forall i | 1 <= i < |filler|
      ensures BytesLess(e.ownerHash, filler[i].ownerHash) && !BytesLess(filler[i].ownerHash, e.ownerHash) && filler[i].ownerHash != e.ownerHash
    {
      assert all[i + 1] == filler[i];
      LessTotal(e.ownerHash, filler[i].ownerHash);
    }
    SplitsThere(filler, e.ownerHash, 1);
  }

  lemma SecondBelow(filler: seq<Entry>, e: Entry, now: int)
    requires |filler| > 1 && Sorted([filler[0], e] + filler[1..]) && filler[0].expiresAt <= now
    ensures StaleBelow(filler, e.ownerHash, now)
  {
    hide BytesLess;
    var all := [filler[0], e] + filler[1..];
    assert all[0] == filler[0] && all[1] == e;
    assert filler[0] in filler;
  }

  lemma RestHeld(zone: Name, params: Params, filler: seq<Entry>, now: int)
    requires |filler| > 1 && filler[0].expiresAt <= now && forall x :: x in filler[1..] ==> x.expiresAt > now
    ensures HeldBy(Swept(Filled(zone, params, filler), now), zone) >= 1
  {
    hide Filter;
    FilterMember(filler, Live(now));
    assert filler[1..][0] in filler[1..];
    assert filler[1] in LiveEntries(filler, now);
  }
}
