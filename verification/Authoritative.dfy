/** The server object: the map of published zone indexes and the two critical sections of an
    UPDATE.  A published index is never written again; every change publishes a fresh one. */
module Authoritative {
  import opened Names
  import opened Records
  import opened Zones
  import opened ZoneRuns
  import opened ZoneStore
  import opened Prereqs
  import opened UpdateService

  class Authoritative {
    var zones: map<Name, ZoneIndex>

    // What every published index is made of: backing arrays, a map of buckets, a set of names.

    ghost function Arrays(): set<array<Record>>
      reads this, zones.Values
    {
      set k, a | k in zones && a in zones[k].owner :: a
    }

    ghost function Maps(): set<BucketMap>
      reads this
    {
      set k | k in zones :: zones[k].byName
    }

    ghost function NameSets(): set<NameSet>
      reads this, zones.Values
    {
      set k | k in zones :: zones[k].namesExist
    }

    ghost predicate Valid()
      reads this, zones.Values, Maps(), Arrays()
    {
      forall k :: k in zones ==> zones[k].Valid()
    }

    /** The zone values visible to queries. */
    ghost function Published(): ZoneMap
      reads this, zones.Values, NameSets()
    {
      map k | k in zones :: zones[k].View()
    }

    constructor ()
      ensures Valid() && Published() == map[]
    {
      zones := map[];
    }

    /** The deepest loaded origin at or above `name`. */
    method FindZone(name: Name) returns (origin: Option<Name>)
      ensures origin.None? ==> forall c :: c in zones ==> !AtOrBelow(name, c)
      ensures origin.Some? ==> origin.value in zones && AtOrBelow(name, origin.value)
      ensures origin.Some? ==> forall c :: c in zones && AtOrBelow(name, c) ==> AtOrBelow(origin.value, c)
    {
      var cur := name;
      while true
        invariant AtOrBelow(name, cur)
        invariant forall c :: c in zones && AtOrBelow(name, c) ==> AtOrBelow(cur, c)
        decreases cur
      {
        if cur in zones {
          return Some(cur);
        }
        if cur.Root? {
          return None;
        }
        AtOrBelowTransitive(name, cur, cur.parent);
        cur := cur.parent;
      }
    }

    /** Builds an index from a zone file and publishes it; a refused file publishes nothing. */
    method AddZone(f: ZoneFile) returns (res: LoadResult)
      requires Valid()
      modifies this
      ensures Valid() && res == Load(f)
      ensures Published() == if Load(f).Loaded? then old(Published())[f.origin := Load(f).zone] else old(Published())
      ensures old(zones.Keys) <= zones.Keys
    {
      hide FirstSoa, Indexed, Marked;
      var soa := FirstSoa(f.records);
      if soa.None? {
        return NoSoa;
      }
      var alias := HasApexAlias(f);
      assert Published() == old(Published());
      if alias {
        return ApexCnameOrDname;
      }
      var z := Install(f, soa.value);
      return Loaded(z);
    }

    method Install(f: ZoneFile, soaRec: Record) returns (z: Zone)
      requires Valid()
      modifies this
      ensures Valid() && z == Zone(f.origin, soaRec, Indexed(f.records), Marked(f.origin, f.records))
      ensures Published() == old(Published())[f.origin := z] && zones.Keys == old(zones.Keys) + {f.origin}
    {
      hide Indexed, Marked;
      var idx := BuildIndex(f, soaRec);
      z := idx.Snapshot();
      Publish(f.origin, idx);
    }

    /** The check made under either lock. */
    method CheckRequest(q: UpdateRequest) returns (rc: Rcode)
      requires Valid() && |q.questions| == 1
      ensures rc == Check(Published(), q)
    {
      var origin := q.questions[0].name;
      if origin !in zones {
        return NotAuth;
      }
      var z := zones[origin].Snapshot();
      rc := EvaluatePrereqs(z, q.prereqs);
      if rc == NoError {
        rc := ValidateUpdates(z.origin, q.updates);
      }
    }

    /** Clone, then mutate the clone: nothing that existed before is written. */
    method NextIndex(idx: ZoneIndex, us: seq<Record>) returns (next: ZoneIndex, notice: Option<(uint32, uint32)>)
      requires idx.Valid()
      ensures fresh(next) && fresh(next.byName) && fresh(next.namesExist) && fresh(next.owner.Keys) && next.Valid()
      ensures next.View() == UpdateZone(idx.View(), us) && notice == Notice(idx.View(), us)
    {
      next := idx.Clone();
      notice := next.Advance(us);
    }

    method Publish(origin: Name, idx: ZoneIndex)
      requires Valid() && idx.Valid()
      modifies this
      ensures Valid() && zones == old(zones)[origin := idx]
      ensures Published() == old(Published())[origin := idx.View()]
    {
      zones := zones[origin := idx];
    }

    method Replace(origin: Name, us: seq<Record>) returns (notice: Option<(uint32, uint32)>)
      requires Valid() && origin in zones
      modifies this
      ensures Valid() && notice == Notice(old(Published())[origin], us)
      ensures Published() == old(Published())[origin := UpdateZone(old(Published())[origin], us)]
      ensures forall k :: k in old(zones) ==> old(zones)[k].Valid() && old(zones)[k].View() == old(zones[k].View())
    {
      hide UpdateZone, Notice;
      var next;
      next, notice := NextIndex(zones[origin], us);
      Publish(origin, next);
    }

    /** The write-lock section: re-check against the index published now, then clone, mutate the
        clone and swap it in.  No index, map or backing array that existed before is written. */
    method CommitUpdate(q: UpdateRequest) returns (rc: Rcode, notice: Option<(uint32, uint32)>)
      requires Valid() && |q.questions| == 1
      modifies this
      ensures Valid() && rc == Check(old(Published()), q)
      ensures Published() == Commit(old(Published()), q)
      ensures rc == NoError ==> notice == Notice(old(Published())[q.questions[0].name], q.updates)
      ensures forall k :: k in old(zones) ==> old(zones)[k].Valid() && old(zones)[k].View() == old(zones[k].View())
    {
      hide UpdateZone, Notice, PrereqCode, UpdatesOK;
      rc := CheckRequest(q);
      assert Published() == old(Published());
      if rc != NoError {
        return rc, None;
      }
      notice := Replace(q.questions[0].name, q.updates);
    }

    /** A whole request on an otherwise idle server. */
    method ServeUpdate(maxRecords: int, q: UpdateRequest) returns (rc: Rcode)
      requires Valid()
      modifies this
      ensures Valid() && (Published(), rc) == ServeAtomic(maxRecords, old(Published()), q)
    {
      hide UpdateZone, PrereqCode, UpdatesOK;
      rc := Admit(maxRecords, q);
      assert Published() == old(Published());
      if rc != NoError {
        return;
      }
      rc := CheckRequest(q);
      assert Published() == old(Published());
      if rc != NoError {
        return;
      }
      var notice;
      rc, notice := CommitUpdate(q);
    }
  }

  method HasApexAlias(f: ZoneFile) returns (b: bool)
    ensures b <==> exists r :: r in f.records && ApexAlias(f.origin, r)
  {
    for i := 0 to |f.records|
      invariant forall r :: r in f.records[..i] ==> !ApexAlias(f.origin, r)
    {
      var r := f.records[i];
      if r.name == f.origin && (r.Type() == TYPE_CNAME || r.Type() == TYPE_DNAME) {
        assert ApexAlias(f.origin, r);
        return true;
      }
      assert f.records[..i + 1] == f.records[..i] + [r];
    }
    assert f.records[..|f.records|] == f.records;
    return false;
  }

  method AllInBailiwick(origin: Name, rs: seq<Record>) returns (ok: bool)
    ensures ok <==> AllInZone(origin, rs)
  {
    for i := 0 to |rs|
      invariant forall j :: 0 <= j < i ==> AtOrBelow(rs[j].name, origin)
    {
      ok := InBailiwick(origin, rs[i].name);
      if !ok {
        assert rs[i] in rs;
        return;
      }
    }
    return true;
  }

  /** The checks made before any lock is taken. */
  method Admit(maxRecords: int, q: UpdateRequest) returns (rc: Rcode)
    ensures rc == PreCheck(maxRecords, q)
  {
    if |q.questions| != 1 || q.questions[0].qtype != TYPE_SOA {
      return FormErr;
    }
    if maxRecords > 0 && |q.prereqs| + |q.updates| > maxRecords {
      return FormErr;
    }
    if !q.allowed {
      return Refused;
    }
    var ok := AllInBailiwick(q.questions[0].name, q.prereqs);
    if !ok {
      return NotZone;
    }
    ok := AllInBailiwick(q.questions[0].name, q.updates);
    if !ok {
      return NotZone;
    }
    return NoError;
  }

  lemma NothingIndexed(origin: Name)
    ensures Indexed([]) == map[] && Marked(origin, []) == {}
  {
  }

  method BuildIndex(f: ZoneFile, soaRec: Record) returns (idx: ZoneIndex)
    ensures fresh(idx) && fresh(idx.byName) && fresh(idx.namesExist) && fresh(idx.owner.Keys) && idx.Valid()
    ensures idx.View() == Zone(f.origin, soaRec, Indexed(f.records), Marked(f.origin, f.records))
  {
    hide Indexed, Marked;
    idx := new ZoneIndex(f.origin, soaRec);
    NothingIndexed(f.origin);
    assert f.records[..0] == [];
    for i := 0 to |f.records|
      invariant fresh(idx) && fresh(idx.byName) && fresh(idx.namesExist) && fresh(idx.owner.Keys) && idx.Valid()
      invariant idx.soaRec == soaRec
      invariant idx.contents == Indexed(f.records[..i])
      invariant idx.namesExist.s == Marked(f.origin, f.records[..i])
    {
      IndexRecord(idx, f.records[..i], f.records[i]);
      assert f.records[..i + 1] == f.records[..i] + [f.records[i]];
    }
    assert f.records[..|f.records|] == f.records;
  }

  /** One more record of the file: its bucket grows and its path is marked. */
  method IndexRecord(idx: ZoneIndex, ghost done: seq<Record>, rec: Record)
    requires idx.Valid() && idx.contents == Indexed(done) && idx.namesExist.s == Marked(idx.origin, done)
    modifies idx`contents, idx`owner, idx.byName, idx.namesExist, idx.owner.Keys
    ensures idx.Valid() && fresh(idx.owner.Keys - old(idx.owner.Keys))
    ensures idx.contents == Indexed(done + [rec]) && idx.namesExist.s == Marked(idx.origin, done + [rec])
  {
    hide Indexed, Marked, PathUp;
    idx.AppendTo(rec.name, rec);
    idx.MarkExists(rec.name);
    IndexedSnoc(done, rec);
    MarkedSnoc(idx.origin, done, rec);
  }

  lemma OwnersSnoc(rs: seq<Record>, r: Record)
    ensures Owners(rs + [r]) == Owners(rs) + {r.name}
  {
    assert forall x :: x in rs + [r] <==> x in rs || x == r;
  }

  lemma IndexedAt(rs: seq<Record>, r: Record, n: Name)
    ensures n != r.name ==> Filter(rs + [r], OwnedBy(n)) == Filter(rs, OwnedBy(n))
    ensures n == r.name ==> Filter(rs + [r], OwnedBy(n)) == Filter(rs, OwnedBy(n)) + [r]
    ensures n !in Owners(rs) ==> Filter(rs, OwnedBy(n)) == []
  {
    FilterSnoc(rs, r, OwnedBy(n));
    if n !in Owners(rs) {
      FilterNone(rs, OwnedBy(n));
    }
  }

  lemma IndexedSnoc(rs: seq<Record>, r: Record)
    ensures Indexed(rs + [r]) == Indexed(rs)[r.name := (if r.name in Indexed(rs) then Indexed(rs)[r.name] else []) + [r]]
  {
    var more := Indexed(rs)[r.name := (if r.name in Indexed(rs) then Indexed(rs)[r.name] else []) + [r]];
    OwnersSnoc(rs, r);
    assert Indexed(rs + [r]).Keys == more.Keys;
    forall n | n in more
      ensures Indexed(rs + [r])[n] == more[n]
    {
      IndexedAt(rs, r, n);
    }
  }

  lemma MarkedSnoc(origin: Name, rs: seq<Record>, r: Record)
    ensures Marked(origin, rs + [r]) == Marked(origin, rs) + PathUp(origin, r.name)
  {
    assert forall x :: x in rs + [r] <==> x in rs || x == r;
  }
}
