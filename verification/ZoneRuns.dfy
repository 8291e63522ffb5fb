/** Loading a zone file, and whole runs of UPDATEs on the loaded zone. */
module ZoneRuns {
  import opened Names
  import opened Records
  import opened Zones
  import opened ZoneLaws
  import opened Serials

  datatype ZoneFile = ZoneFile(origin: Name, records: seq<Record>)

  datatype LoadResult = Loaded(zone: Zone) | NoSoa | ApexCnameOrDname

  // ----- loading -----

  function Owners(records: seq<Record>): set<Name> {
    set r | r in records :: r.name
  }

  function Indexed(records: seq<Record>): map<Name, seq<Record>> {
    map n | n in Owners(records) :: Filter(records, OwnedBy(n))
  }

  function Marked(origin: Name, records: seq<Record>): set<Name> {
    set r, m | r in records && m in PathUp(origin, r.name) :: m
  }

  predicate ApexAlias(origin: Name, r: Record) {
    r.name == origin && (r.Type() == TYPE_CNAME || r.Type() == TYPE_DNAME)
  }

  function Load(f: ZoneFile): LoadResult {
    if FirstSoa(f.records).None? then NoSoa
    else if exists r :: r in f.records && ApexAlias(f.origin, r) then ApexCnameOrDname
    else Loaded(Zone(f.origin, FirstSoa(f.records).value, Indexed(f.records), Marked(f.origin, f.records)))
  }

  /** A file loads exactly when it holds an SOA value and no alias at the apex; the zone keeps the first
      SOA and every record, bucketed in file order. */
  lemma LoadExactly(f: ZoneFile, i: nat)
    ensures Load(f) == NoSoa <==> forall r :: r in f.records ==> !r.rdata.SoaData?
    ensures Load(f).Loaded? <==>
              && (exists r :: r in f.records && r.rdata.SoaData?)
              && forall r :: r in f.records && r.name == f.origin ==> r.Type() != TYPE_CNAME && r.Type() != TYPE_DNAME
    ensures Load(f).Loaded? && FirstAt(f.records, IsSoa(), i) ==> Load(f).zone.origin == f.origin && Load(f).zone.soaRec == f.records[i]
    ensures Load(f).Loaded? ==> forall n :: Bucket(Load(f).zone, n) == Filter(f.records, OwnedBy(n))
  {
    hide Indexed, Marked, FirstSoa;
    FirstSoaExactly(f.records, i);
    if Load(f).Loaded? {
      forall n
        ensures Bucket(Load(f).zone, n) == Filter(f.records, OwnedBy(n))
      {
        IndexedBucket(f, n);
      }
    }
  }

  /** In-zone records, one SOA at the apex, and that one is the first SOA of the file. */
  ghost predicate Loadable(f: ZoneFile) {
    && AllInZone(f.origin, f.records)
    && FirstSoa(f.records).Some?
    && Filter(Filter(f.records, OwnedBy(f.origin)), OfType(TYPE_SOA)) == [FirstSoa(f.records).value]
  }

  lemma IndexedBucket(f: ZoneFile, n: Name)
    requires Load(f).Loaded?
    ensures Bucket(Load(f).zone, n) == Filter(f.records, OwnedBy(n))
    ensures n in Load(f).zone.byName ==> Filter(f.records, OwnedBy(n)) != []
  {
    FilterMember(f.records, OwnedBy(n));
    if n in Owners(f.records) {
      var r :| r in f.records && r.name == n;
      assert r in Filter(f.records, OwnedBy(n));
    } else {
      FilterNone(f.records, OwnedBy(n));
    }
  }

  lemma LoadedWellKeyed(f: ZoneFile)
    requires Load(f).Loaded?
    ensures WellKeyed(Load(f).zone) <==> AllInZone(f.origin, f.records)
  {
    var z := Load(f).zone;
    forall n | n in z.byName
      ensures BucketOK(z.origin, n, z.byName[n]) <==> AtOrBelow(n, z.origin)
    {
      IndexedBucket(f, n);
      FilterMember(f.records, OwnedBy(n));
    }
    assert forall r :: r in f.records ==> r.name in z.byName;
  }

  lemma LoadedNamesExact(f: ZoneFile)
    requires Load(f).Loaded? && AllInZone(f.origin, f.records)
    ensures NamesExact(Load(f).zone)
  {
    var z := Load(f).zone;
    forall m
      ensures m in z.namesExist <==> OnSomePath(z, m)
    {
      forall r | r in f.records
        ensures m in PathUp(z.origin, r.name) <==> AtOrBelow(r.name, m) && AtOrBelow(m, z.origin)
      {
        PathUpInZone(z.origin, r.name, m);
      }
      if m in z.namesExist {
        var r :| r in f.records && m in PathUp(z.origin, r.name);
        assert r.name in z.byName;
      }
      if OnSomePath(z, m) {
        var n :| n in z.byName && AtOrBelow(n, m);
        var r :| r in f.records && r.name == n;
        assert m in PathUp(z.origin, r.name);
      }
    }
  }

  /** Loading is total on such files, and it yields a well-formed zone for no other file. */
  lemma LoadEstablishesZoneOK(f: ZoneFile)
    requires Load(f).Loaded?
    ensures ZoneOK(Load(f).zone) <==> Loadable(f)
  {
    var z := Load(f).zone;
    IndexedBucket(f, f.origin);
    FilterMember(f.records, OwnedBy(f.origin));
    LoadedWellKeyed(f);
    if AllInZone(f.origin, f.records) {
      LoadedNamesExact(f);
    }
  }

  // ----- runs of accepted UPDATEs -----

  ghost predicate Accepted(origin: Name, run: seq<seq<Record>>) {
    forall i :: 0 <= i < |run| ==> AllInZone(origin, run[i]) && UpdatesOK(origin, run[i])
  }

  function RunUpdates(z: Zone, run: seq<seq<Record>>): Zone {
    if run == [] then z else UpdateZone(RunUpdates(z, run[..|run| - 1]), run[|run| - 1])
  }

  lemma {:induction false} RunKeepsZoneOK(z: Zone, run: seq<seq<Record>>)
    requires ZoneOK(z) && Accepted(z.origin, run)
    ensures ZoneOK(RunUpdates(z, run)) && RunUpdates(z, run).origin == z.origin
    ensures ApexNS(z) <= ApexNS(RunUpdates(z, run))
  {
    if run != [] {
      RunKeepsZoneOK(z, run[..|run| - 1]);
      UpdateKeepsZoneOK(RunUpdates(z, run[..|run| - 1]), run[|run| - 1]);
    }
  }

  /** Every zone reachable by loading and then any run of accepted UPDATEs is well formed and
      still has all the apex NS records it was loaded with. */
  lemma ReachableZoneOK(f: ZoneFile, run: seq<seq<Record>>)
    requires Load(f).Loaded? && Loadable(f) && Accepted(f.origin, run)
    ensures ZoneOK(RunUpdates(Load(f).zone, run))
    ensures Filter(Filter(f.records, OwnedBy(f.origin)), OfType(TYPE_NS)) <= ApexNS(RunUpdates(Load(f).zone, run))
  {
    LoadEstablishesZoneOK(f);
    IndexedBucket(f, f.origin);
    RunKeepsZoneOK(Load(f).zone, run);
  }

  // ----- serials -----

  function ChangeCount(z: Zone, run: seq<seq<Record>>): nat {
    if run == [] then 0
    else
      var init := run[..|run| - 1];
      ChangeCount(z, init) + (if AnyChanges(RunUpdates(z, init), run[|run| - 1]) then 1 else 0)
  }

  /** The SOA record after `n` bumps; a bump rewrites the class to IN. */
  function SoaAfter(r: Record, n: nat): Record
    requires r.rdata.SoaData?
  {
    if n == 0 then r
    else Record(r.name, CLASS_IN, r.ttl, SoaData(r.rdata.soa.(serial := Advance(r.rdata.soa.serial, n))))
  }

  lemma BumpedOnce(r: Record, n: nat)
    requires Bumpable(r)
    ensures Bumpable(SoaAfter(r, n)) && Bumped(SoaAfter(r, n)) == SoaAfter(r, n + 1)
  {
  }

  /** Over any run adding no apex SOA the published serial advances by exactly the number of
      change-effecting UPDATEs modulo 2^32, provided the apex SOA can be bumped at all; otherwise
      it never moves.  With no change nothing at all differs. */
  lemma {:induction false} SerialCountsChanges(z: Zone, run: seq<seq<Record>>)
    requires ZoneOK(z) && Accepted(z.origin, run)
    requires forall i :: 0 <= i < |run| ==> NoApexSoaAdd(z.origin, run[i])
    ensures Bumpable(z.soaRec) ==> RunUpdates(z, run).soaRec == SoaAfter(z.soaRec, ChangeCount(z, run))
    ensures !Bumpable(z.soaRec) ==> RunUpdates(z, run).soaRec == z.soaRec
    ensures ChangeCount(z, run) == 0 ==> RunUpdates(z, run) == z
  {
    hide ZoneOK, ApplyAll, AnyChanges, PathUp, Bumpable;
    if run != [] {
      var init, us := run[..|run| - 1], run[|run| - 1];
      SerialCountsChanges(z, init);
      RunKeepsZoneOK(z, init);
      var z1 := RunUpdates(z, init);
      assert NoApexSoaAdd(z1.origin, us);
      ApplyAllSound(z1, us);
      if Bumpable(z.soaRec) {
        BumpedOnce(z.soaRec, ChangeCount(z, init));
      }
    }
  }

  /** A secondary that compares serials sees every such run as an advance. */
  lemma RunLooksNewer(z: Zone, run: seq<seq<Record>>)
    requires ZoneOK(z) && Accepted(z.origin, run) && Bumpable(z.soaRec)
    requires forall i :: 0 <= i < |run| ==> NoApexSoaAdd(z.origin, run[i])
    ensures RunUpdates(z, run).soaRec.rdata.SoaData?
    ensures 1 <= ChangeCount(z, run) < 0x8000_0000 ==>
              SerialIsOlder(z.soaRec.rdata.soa.serial, RunUpdates(z, run).soaRec.rdata.soa.serial)
  {
    SerialCountsChanges(z, run);
    SoaAfterLooksNewer(z.soaRec, ChangeCount(z, run));
  }

  lemma SoaAfterLooksNewer(r: Record, k: nat)
    requires r.rdata.SoaData?
    ensures 1 <= k < 0x8000_0000 ==> SerialIsOlder(r.rdata.soa.serial, SoaAfter(r, k).rdata.soa.serial)
  {
    AdvancedIsNewer(r.rdata.soa.serial, k);
  }

  // ----- a serial that is stuck -----

  /** An SOA whose refresh timer is one second too long to be written back. */
  const STUCK_SOA: Record := Record(Root, CLASS_IN, 0, SoaData(SOA(Root, Root, 7, (MAX_TIMER + 1) * SECOND, 0, 0, 0)))
  const STUCK_ZONE: Zone := Zone(Root, STUCK_SOA, map[Root := [STUCK_SOA]], {Root})
  const ADDED: Record := Record(Sub([97], Root), CLASS_IN, 0, Opaque(TYPE_A, [192, 0, 2, 1]))

  lemma StuckZoneOK()
    ensures ZoneOK(STUCK_ZONE) && !Bumpable(STUCK_SOA)
  {
    FilterSnoc([], STUCK_SOA, OfType(TYPE_SOA));
    assert [] + [STUCK_SOA] == [STUCK_SOA];
    assert Bucket(STUCK_ZONE, Root) == [STUCK_SOA];
    forall m
      ensures m in STUCK_ZONE.namesExist <==> OnSomePath(STUCK_ZONE, m)
    {
      AtOrBelowRoot(m);
      assert Root in STUCK_ZONE.byName;
      if OnSomePath(STUCK_ZONE, m) {
        AtOrBelowDepth(Root, m);
      }
    }
  }

  /** The update changes the zone and its serial stays where it was. */
  lemma SerialStuck()
    ensures ZoneOK(STUCK_ZONE) && Accepted(Root, [[ADDED]]) && NoApexSoaAdd(Root, [ADDED])
    ensures AnyChanges(STUCK_ZONE, [ADDED]) && SerialOf(UpdateZone(STUCK_ZONE, [ADDED]).soaRec) == 7
  {
    StuckZoneOK();
    AtOrBelowRoot(ADDED.name);
    assert [ADDED][..0] == [];
    assert ApplyAll(STUCK_ZONE, []) == STUCK_ZONE;
    assert ApplyAll(STUCK_ZONE, [ADDED]) == Apply(STUCK_ZONE, ADDED);
    assert Bucket(STUCK_ZONE, ADDED.name) == [];
    assert Changes(STUCK_ZONE, ADDED);
  }

  // ----- a file whose first SOA is not its own -----

  const CHILD_SOA: Record := Record(Sub([97], Root), CLASS_IN, 0, SoaData(SOA(Root, Root, 1, 0, 0, 0, 0)))
  const APEX_SOA: Record := Record(Root, CLASS_IN, 0, SoaData(SOA(Root, Root, 2, 0, 0, 0, 0)))

  const FOREIGN_FILE: ZoneFile := ZoneFile(Root, [CHILD_SOA, APEX_SOA])

  lemma ForeignSoas()
    ensures Filter(Filter(FOREIGN_FILE.records, OwnedBy(Root)), OfType(TYPE_SOA)) == [APEX_SOA]
  {
    hide Filter;
    assert [CHILD_SOA] + [APEX_SOA] == FOREIGN_FILE.records && [] + [CHILD_SOA] == [CHILD_SOA] && [] + [APEX_SOA] == [APEX_SOA];
    NoneLeft();
    FilterSnoc([CHILD_SOA], APEX_SOA, OwnedBy(Root));
    FilterSnoc([], CHILD_SOA, OwnedBy(Root));
    FilterSnoc([], APEX_SOA, OfType(TYPE_SOA));
  }

  lemma NoneLeft()
    ensures Filter([], OwnedBy(Root)) == [] && Filter([], OfType(TYPE_SOA)) == []
  {
  }

  lemma ForeignLoads()
    ensures AllInZone(Root, FOREIGN_FILE.records) && Load(FOREIGN_FILE).Loaded? && Load(FOREIGN_FILE).zone.soaRec == CHILD_SOA
  {
    hide Indexed, Marked, PathUp;
    AtOrBelowRoot(CHILD_SOA.name);
    assert FirstSoa(FOREIGN_FILE.records) == Some(CHILD_SOA);
  }

  /** The file is accepted, all its records lie in the zone, and the SOA kept at hand is the
      child's. */
  lemma ForeignSoaLoaded()
    ensures AllInZone(Root, FOREIGN_FILE.records) && Load(FOREIGN_FILE).Loaded?
    ensures Load(FOREIGN_FILE).zone.soaRec == CHILD_SOA && !ZoneOK(Load(FOREIGN_FILE).zone)
  {
    hide Indexed, Marked, PathUp, ZoneOK, Filter, Load, FirstSoa;
    ForeignLoads();
    ForeignSoas();
    ForeignFirst();
    LoadEstablishesZoneOK(FOREIGN_FILE);
  }

  lemma ForeignFirst()
    ensures FirstSoa(FOREIGN_FILE.records) == Some(CHILD_SOA)
  {
  }
}
