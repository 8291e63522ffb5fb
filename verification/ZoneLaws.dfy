/** What every accepted UPDATE keeps, over every run: the index invariants, the apex records, and
    the serial arithmetic. */
module ZoneLaws {
  import opened Names
  import opened Records
  import opened Zones

  /** The apex NS records of a zone, in order. */
  function ApexNS(z: Zone): seq<Record> {
    Filter(Bucket(z, z.origin), OfType(TYPE_NS))
  }

  /** The invariants that hold between two records of one update section; the set of existing
      names is exact again only after the rebuild. */
  ghost predicate Sound(z: Zone) {
    WellKeyed(z) && ApexOK(z)
  }

  lemma SoundHasApex(z: Zone)
    requires Sound(z)
    ensures z.origin in z.byName && z.soaRec in z.byName[z.origin]
    ensures z.soaRec.Type() == TYPE_SOA && z.soaRec.name == z.origin
  {
    FilterMember(Bucket(z, z.origin), OfType(TYPE_SOA));
    assert z.soaRec in Filter(Bucket(z, z.origin), OfType(TYPE_SOA));
    assert BucketOK(z.origin, z.origin, z.byName[z.origin]);
  }

  // ----- one record -----

  /** A delete at the apex removes neither SOA nor NS records. */
  lemma DeleteKeepsApex(origin: Name, u: Record, recs: seq<Record>, t: uint16)
    requires u.name == origin && (t == TYPE_SOA || t == TYPE_NS)
    ensures Filter(Filter(recs, Survives(origin, u)), OfType(t)) == Filter(recs, OfType(t))
  {
    FilterFilter(recs, Survives(origin, u), OfType(t), OfType(t));
  }

  lemma DeletedBucket(origin: Name, u: Record, recs: seq<Record>, n: Name)
    requires BucketOK(origin, n, recs)
    ensures Filter(recs, Survives(origin, u)) != [] ==> BucketOK(origin, n, Filter(recs, Survives(origin, u)))
  {
    FilterMember(recs, Survives(origin, u));
  }

  lemma DeletedApex(origin: Name, u: Record, recs: seq<Record>, soaRec: Record)
    requires u.name == origin && ApexBucketOK(recs, soaRec)
    ensures ApexBucketOK(Filter(recs, Survives(origin, u)), soaRec)
    ensures Filter(Filter(recs, Survives(origin, u)), OfType(TYPE_NS)) == Filter(recs, OfType(TYPE_NS))
  {
    FilterMember(recs, Survives(origin, u));
    DeleteKeepsApex(origin, u, recs, TYPE_SOA);
    DeleteKeepsApex(origin, u, recs, TYPE_NS);
  }

  lemma DeleteSound(z: Zone, u: Record)
    requires Sound(z) && IsDelete(u)
    ensures Sound(Apply(z, u)) && ApexNS(Apply(z, u)) == ApexNS(z)
    ensures Apply(z, u).soaRec == z.soaRec
  {
    if Changes(z, u) {
      var recs := z.byName[u.name];
      DeletedBucket(z.origin, u, recs, u.name);
      if u.name == z.origin {
        DeletedApex(z.origin, u, recs, z.soaRec);
      }
    }
  }

  lemma AddedApex(origin: Name, u: Record, recs: seq<Record>, soaRec: Record)
    requires ApexBucketOK(recs, soaRec) && u.Type() != TYPE_CNAME && u.Type() != TYPE_DNAME
    ensures
      var base := if u.Type() == TYPE_SOA then Filter(recs, NotOfType(TYPE_SOA)) else recs;
      && ApexBucketOK(base + [Stored(u)], if u.Type() == TYPE_SOA then Stored(u) else soaRec)
      && Filter(recs, OfType(TYPE_NS)) <= Filter(base + [Stored(u)], OfType(TYPE_NS))
  {
    var base := if u.Type() == TYPE_SOA then Filter(recs, NotOfType(TYPE_SOA)) else recs;
    FilterSnoc(base, Stored(u), OfType(TYPE_SOA));
    FilterSnoc(base, Stored(u), OfType(TYPE_NS));
    if u.Type() == TYPE_SOA {
      FilterMember(recs, NotOfType(TYPE_SOA));
      FilterNone(base, OfType(TYPE_SOA));
      FilterFilter(recs, NotOfType(TYPE_SOA), OfType(TYPE_NS), OfType(TYPE_NS));
    }
  }

  lemma AddWellKeyed(z: Zone, u: Record)
    requires WellKeyed(z) && AtOrBelow(u.name, z.origin) && !IsDelete(u)
    ensures WellKeyed(Apply(z, u))
  {
    if Changes(z, u) {
      FilterMember(Bucket(z, u.name), NotOfType(TYPE_SOA));
      assert BucketOK(z.origin, u.name, Added(z, u));
    }
  }

  lemma AddApexOK(z: Zone, u: Record)
    requires ApexOK(z) && !IsDelete(u) && UpdateShapeOK(z.origin, u)
    ensures ApexOK(Apply(z, u)) && ApexNS(z) <= ApexNS(Apply(z, u))
  {
    if Changes(z, u) && u.name == z.origin {
      AddedApex(z.origin, u, Bucket(z, z.origin), z.soaRec);
    }
  }

  lemma ApplySound(z: Zone, u: Record)
    requires Sound(z) && AtOrBelow(u.name, z.origin) && UpdateShapeOK(z.origin, u)
    ensures Sound(Apply(z, u)) && ApexNS(z) <= ApexNS(Apply(z, u))
    ensures !IsApexSoaAdd(z.origin, u) ==> Apply(z, u).soaRec == z.soaRec
  {
    if IsDelete(u) {
      DeleteSound(z, u);
    } else {
      AddWellKeyed(z, u);
      AddApexOK(z, u);
    }
  }

  // ----- one update section -----

  ghost predicate NoApexSoaAdd(origin: Name, us: seq<Record>) {
    forall u :: u in us ==> !IsApexSoaAdd(origin, u)
  }

  lemma {:induction false} ApplyAllSound(z: Zone, us: seq<Record>)
    requires Sound(z) && AllInZone(z.origin, us) && UpdatesOK(z.origin, us)
    ensures Sound(ApplyAll(z, us)) && ApplyAll(z, us).origin == z.origin
    ensures ApexNS(z) <= ApexNS(ApplyAll(z, us))
    ensures NoApexSoaAdd(z.origin, us) ==> ApplyAll(z, us).soaRec == z.soaRec
    ensures !AnyChanges(z, us) ==> ApplyAll(z, us) == z
  {
    if us != [] {
      var init, u := us[..|us| - 1], us[|us| - 1];
      assert forall x :: x in init ==> x in us;
      ApplyAllSound(z, init);
      assert u in us;
      ApplySound(ApplyAll(z, init), u);
    }
  }

  /** Replacing the SOA of a bucket that has one SOA leaves every other record where it was. */
  lemma {:induction false} ReplaceFirstSoaKeeps(recs: seq<Record>, rec: Record, t: uint16)
    requires rec.Type() == TYPE_SOA && |Filter(recs, OfType(TYPE_SOA))| == 1 && t != TYPE_SOA
    ensures Filter(ReplaceFirstSoa(recs, rec), OfType(TYPE_SOA)) == [rec]
    ensures forall r :: r in ReplaceFirstSoa(recs, rec) ==> r == rec || r in recs
    ensures Filter(ReplaceFirstSoa(recs, rec), OfType(t)) == Filter(recs, OfType(t))
  {
    var head, tail := recs[0], recs[1..];
    assert recs == [head] + tail;
    FilterConcat([head], tail, OfType(TYPE_SOA));
    FilterConcat([head], tail, OfType(t));
    if head.Type() == TYPE_SOA {
      assert Filter(tail, OfType(TYPE_SOA)) == [];
      FilterConcat([rec], tail, OfType(TYPE_SOA));
      FilterConcat([rec], tail, OfType(t));
    } else {
      ReplaceFirstSoaKeeps(tail, rec, t);
      FilterConcat([head], ReplaceFirstSoa(tail, rec), OfType(TYPE_SOA));
      FilterConcat([head], ReplaceFirstSoa(tail, rec), OfType(t));
    }
  }

  lemma ReplacedApex(origin: Name, recs: seq<Record>, soaRec: Record, rec: Record)
    requires BucketOK(origin, origin, recs) && ApexBucketOK(recs, soaRec)
    requires rec.Type() == TYPE_SOA && rec.name == origin
    ensures
      var recs' := ReplaceFirstSoa(recs, rec);
      && BucketOK(origin, origin, recs') && ApexBucketOK(recs', rec)
      && Filter(recs', OfType(TYPE_NS)) == Filter(recs, OfType(TYPE_NS))
  {
    ReplaceFirstSoaKeeps(recs, rec, TYPE_NS);
  }

  lemma ApexReplaced(z: Zone, recs: seq<Record>, rec: Record)
    requires WellKeyed(z) && BucketOK(z.origin, z.origin, recs) && ApexBucketOK(recs, rec)
    ensures Sound(z.(soaRec := rec, byName := z.byName[z.origin := recs]))
  {
  }

  lemma BumpSound(z: Zone)
    requires Sound(z)
    ensures Sound(BumpSoa(z)) && ApexNS(BumpSoa(z)) == ApexNS(z)
  {
    SoundHasApex(z);
    if Bumpable(z.soaRec) {
      var recs, rec := z.byName[z.origin], Bumped(z.soaRec);
      ReplacedApex(z.origin, recs, z.soaRec, rec);
      ApexReplaced(z, ReplaceFirstSoa(recs, rec), rec);
    }
  }

  /** Every index invariant survives an accepted UPDATE, and no apex NS record is ever lost. */
  lemma UpdateKeepsZoneOK(z: Zone, us: seq<Record>)
    requires ZoneOK(z) && AllInZone(z.origin, us) && UpdatesOK(z.origin, us)
    ensures ZoneOK(UpdateZone(z, us)) && UpdateZone(z, us).origin == z.origin
    ensures ApexNS(z) <= ApexNS(UpdateZone(z, us))
  {
    ApplyAllSound(z, us);
    if AnyChanges(z, us) {
      var z1 := ApplyAll(z, us);
      BumpSound(z1);
      SoundHasApex(BumpSoa(z1));
      RebuiltSound(BumpSoa(z1));
    }
  }

  lemma RebuiltSound(z: Zone)
    requires Sound(z) && z.origin in z.byName
    ensures ZoneOK(Rebuilt(z)) && ApexNS(Rebuilt(z)) == ApexNS(z)
  {
    RebuiltExact(z);
  }
}
