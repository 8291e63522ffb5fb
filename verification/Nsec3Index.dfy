/** The NSEC3 index as the resolver holds it: a map of zones updated in place. */
module Nsec3Index {
  import opened Names
  import opened WireDecode
  import opened Records
  import opened Nsec3

  /** Taking one zone out of the count, whichever it is. */
  lemma {:induction false} TotalWithout(zones: ZoneTable, k: Name)
    requires k in zones
    ensures Total(zones) == |zones[k].entries| + Total(zones - {k})
    decreases |zones|
  {
    var c :| c in zones && Total(zones) == |zones[c].entries| + Total(zones - {c});
    if c != k {
      TotalWithout(zones - {c}, k);
      TotalWithout(zones - {k}, c);
      assert zones - {c} - {k} == zones - {k} - {c};
    }
  }

  lemma TotalWith(zones: ZoneTable, k: Name, z: ZoneEntries)
    ensures Total(zones[k := z]) == |z.entries| + Total(zones - {k})
  {
    TotalWithout(zones[k := z], k);
    assert zones[k := z] - {k} == zones - {k};
  }

  method KeepLive(entries: seq<Entry>, now: int) returns (kept: seq<Entry>)
    ensures kept == LiveEntries(entries, now)
  {
    kept := [];
    var i := 0;
    while i < |entries|
      invariant 0 <= i <= |entries| && kept == LiveEntries(entries[..i], now)
    {
      FilterPrefix(entries, i, Live(now));
      if entries[i].expiresAt > now {
        kept := kept + [entries[i]];
      }
      i := i + 1;
    }
    assert entries[..i] == entries;
  }

  class Index {
    var zones: ZoneTable
    const maxLen: nat

    constructor (maxLen: nat)
      ensures zones == map[] && this.maxLen == maxLen
    {
      zones := map[];
      this.maxLen := maxLen;
    }

    method CountEntries() returns (n: nat)
      ensures n == Total(zones)
    {
      n := 0;
      var rest := zones;
      while rest != map[]
        invariant n + Total(rest) == Total(zones)
        decreases |rest|
      {
        var k :| k in rest;
        TotalWithout(rest, k);
        n := n + |rest[k].entries|;
        rest := rest - {k};
      }
    }

    method SweepExpired(now: int)
      modifies this
      ensures zones == Swept(old(zones), now)
    {
      hide LiveEntries;
      var todo := zones.Keys;
      while todo != {}
        invariant forall k :: k in todo ==> k in old(zones)
        invariant forall k :: k in zones ==> k in old(zones)
        invariant forall k :: k in todo ==> k in zones && zones[k] == old(zones)[k]
        invariant forall k :: k in old(zones) && k !in todo ==> (k in zones <==> k in Swept(old(zones), now))
        invariant forall k :: k in zones && k !in todo ==> zones[k] == Swept(old(zones), now)[k]
        decreases |todo|
      {
        var k :| k in todo;
        var kept := KeepLive(zones[k].entries, now);
        if kept == [] {
          zones := zones - {k};
        } else {
          zones := zones[k := zones[k].(entries := kept)];
        }
        todo := todo - {k};
      }
      assert zones == Swept(old(zones), now);
    }

    /** The first entry of a zone that beats the best so far. */
    method SoonestIn(k: Name, best: Option<(Name, nat)>) returns (r: Option<(Name, nat)>)
      requires k in zones
      requires best.Some? ==> best.value.0 in zones && best.value.1 < |zones[best.value.0].entries|
      ensures r.Some? ==> r.value.0 in zones && r.value.1 < |zones[r.value.0].entries|
      ensures r.None? <==> best.None? && zones[k].entries == []
      ensures r.Some? ==> forall e :: e in zones[k].entries ==> Expiry(r.value.0, r.value.1) <= e.expiresAt
      ensures best.Some? ==> r.Some? && Expiry(r.value.0, r.value.1) <= Expiry(best.value.0, best.value.1)
    {
      r := best;
      var es := zones[k].entries;
      var j := 0;
      while j < |es|
        invariant 0 <= j <= |es|
        invariant r.Some? ==> r.value.0 in zones && r.value.1 < |zones[r.value.0].entries|
        invariant r.None? <==> best.None? && j == 0
        invariant r.Some? ==> forall i :: 0 <= i < j ==> Expiry(r.value.0, r.value.1) <= es[i].expiresAt
        invariant best.Some? ==> r.Some? && Expiry(r.value.0, r.value.1) <= Expiry(best.value.0, best.value.1)
      {
        if r.None? || es[j].expiresAt < zones[r.value.0].entries[r.value.1].expiresAt {
          r := Some((k, j));
        }
        j := j + 1;
      }
    }

    ghost function Expiry(k: Name, j: nat): int
      requires k in zones && j < |zones[k].entries|
      reads this
    {
      zones[k].entries[j].expiresAt
    }

    method FindSoonest() returns (r: Option<(Name, nat)>)
      ensures r.None? <==> NoEntries(zones)
      ensures r.Some? ==> Soonest(zones, r.value.0, r.value.1)
    {
      r := None;
      var todo := zones.Keys;
      while todo != {}
        invariant forall k :: k in todo ==> k in zones
        invariant r.Some? ==> r.value.0 in zones && r.value.1 < |zones[r.value.0].entries|
        invariant r.None? <==> forall n :: n in zones && n !in todo ==> zones[n].entries == []
        invariant r.Some? ==> forall n, e :: n in zones && n !in todo && e in zones[n].entries ==> Expiry(r.value.0, r.value.1) <= e.expiresAt
        decreases |todo|
      {
        var k :| k in todo;
        r := SoonestIn(k, r);
        todo := todo - {k};
      }
    }

    method EvictSoonest()
      modifies this
      ensures Evicts(old(zones), zones)
    {
      var s := FindSoonest();
      if s.Some? {
        var k, j := s.value.0, s.value.1;
        var left := zones[k].entries[..j] + zones[k].entries[j + 1..];
        if left == [] {
          zones := zones - {k};
        } else {
          zones := zones[k := zones[k].(entries := left)];
        }
        assert Soonest(old(zones), k, j) && zones == Without(old(zones), k, j);
      }
    }

    /** Both cap checks: sweep when full, evict when still full. */
    method MakeRoom(now: int) returns (swept: bool, evicted: bool)
      modifies this
      ensures swept == AtCap(old(zones), maxLen)
      ensures var z := if swept then Swept(old(zones), now) else old(zones);
              evicted == AtCap(z, maxLen) && if evicted then Evicts(z, zones) else zones == z
    {
      var n := CountEntries();
      swept := maxLen > 0 && n >= maxLen;
      if swept {
        SweepExpired(now);
      }
      n := CountEntries();
      evicted := maxLen > 0 && n >= maxLen;
      if evicted {
        EvictSoonest();
      }
    }

    method OpenZone(key: Name, params: Params)
      modifies this
      ensures zones == WithZone(old(zones), key, params)
    {
      if key !in zones || zones[key].params != params {
        zones := zones[key := ZoneEntries(params, [])];
      }
    }

    method StoreRehydrated(key: Name, params: Params, e: Entry)
      modifies this
      ensures zones == StoreFresh(old(zones), key, params, e)
    {
      if key !in zones {
        zones := zones[key := ZoneEntries(params, [])];
      }
      var i, _ := BinarySearch(zones[key].entries, e.ownerHash);
      zones := WithEntryAt(zones, key, i, e);
    }

    method AddEntry(key: Name, params: Params, e: Entry, now: int) returns (out: Outcome)
      requires key in zones
      modifies this
      ensures Adds(old(zones), maxLen, key, params, e, now, zones, out)
    {
      var i, _ := BinarySearch(zones[key].entries, e.ownerHash);
      var swept, evicted := MakeRoom(now);
      if evicted {
        StoreRehydrated(key, params, e);
        out := Kept;
      } else {
        var len := if key in zones then |zones[key].entries| else 0;
        if i > len {
          return Panicked;
        }
        if key !in zones {
          return Lost;
        }
        zones := WithEntryAt(zones, key, i, e);
        out := Kept;
      }
    }

    method Insert(key: Name, params: Params, e: Entry, now: int) returns (out: Outcome)
      modifies this
      ensures Inserts(old(zones), maxLen, key, params, e, now, zones, out)
    {
      if !Usable(params) {
        return Lost;
      }
      OpenZone(key, params);
      var i, found := BinarySearch(zones[key].entries, e.ownerHash);
      if found {
        zones := zones[key := zones[key].(entries := zones[key].entries[i := e])];
        return Kept;
      }
      out := AddEntry(key, params, e, now);
    }

    method Lookup(sha1: Bytes -> Hash, apex: Name, q: Name, qtype: uint16, now: int) returns (v: Verdict)
      ensures v == VerdictOf(sha1, zones, apex, q, qtype, now)
    {
      if apex !in zones {
        return NoProof;
      }
      var m := MatchHash(sha1, zones[apex], q, now);
      if m.Some? && TYPE_CNAME !in m.value.types && qtype !in m.value.types {
        return NoData(m.value);
      }
      var p := ClosestEncloserProof(sha1, zones[apex], q, now);
      return if p.Some? then NameError(p.value) else NoProof;
    }

    /** The deepest zone in the index at or above `name`. */
    method DeepestZone(name: Name) returns (zone: Option<Name>)
      ensures zone == Nearest(name, HasZone(zones))
    {
      var cur := name;
      while true
        invariant Nearest(name, HasZone(zones)) == Nearest(cur, HasZone(zones))
        decreases cur
      {
        if cur in zones {
          return Some(cur);
        }
        if cur.Root? {
          return None;
        }
        cur := cur.parent;
      }
    }
  }
}
