/** What the records of an update section do to the record sets of a zone, in terms of owners, types,
    TTLs and packed data. */
module ApplyLaws {
  import opened Names
  import opened Records
  import opened Zones
  import opened ZoneLaws

  // ----- one record -----

  /** What a delete removes: by type for class ANY, by type and data for class NONE, and never the
      SOA and NS records of the apex. */
  predicate Hit(origin: Name, u: Record, r: Record) {
    && !(u.name == origin && (r.Type() == TYPE_SOA || r.Type() == TYPE_NS))
    && if u.cls == CLASS_ANY then u.Type() == TYPE_ANY || r.Type() == u.Type()
       else r.Type() == u.Type() && Pack(r.rdata) == Pack(u.rdata)
  }

  function Missed(origin: Name, u: Record): Record -> bool {
    (r: Record) => !Hit(origin, u, r)
  }

  /** A delete takes exactly those records out of its own bucket, and touches nothing else. */
  lemma DeleteExactly(z: Zone, u: Record)
    requires u.cls == CLASS_ANY || u.cls == CLASS_NONE
    ensures Bucket(Apply(z, u), u.name) == Filter(Bucket(z, u.name), Missed(z.origin, u))
    ensures forall r :: r in Bucket(Apply(z, u), u.name) <==> r in Bucket(z, u.name) && !Hit(z.origin, u, r)
    ensures forall n :: n != u.name ==> Bucket(Apply(z, u), n) == Bucket(z, n)
    ensures Apply(z, u) == z.(byName := Apply(z, u).byName)
  {
    hide Filter, Pack;
    var recs := Bucket(z, u.name);
    FilterAgrees(recs, Survives(z.origin, u), Missed(z.origin, u));
    FilterAll(recs, Survives(z.origin, u));
    FilterMember(recs, Missed(z.origin, u));
    NothingLeft(z.origin, u);
  }

  lemma NothingLeft(origin: Name, u: Record)
    ensures Filter([], Missed(origin, u)) == []
  {
  }

  /** The bucket holds a record of this type, TTL and packed data. */
  ghost predicate Present(z: Zone, n: Name, t: uint16, ttl: int, w: seq<byte>) {
    exists r :: r in Bucket(z, n) && r.Type() == t && r.ttl == ttl && Pack(r.rdata) == w
  }

  /** An add changes nothing if its record is there already, and otherwise puts it at the end of its
      bucket, with class IN; at the apex an SOA takes the place of the old one. */
  lemma AddExactly(z: Zone, u: Record)
    requires u.cls != CLASS_ANY && u.cls != CLASS_NONE
    ensures Present(z, u.name, u.Type(), u.ttl, Pack(u.rdata)) ==> Apply(z, u) == z
    ensures !Present(z, u.name, u.Type(), u.ttl, Pack(u.rdata)) ==>
              var rec, soa := Record(u.name, CLASS_IN, u.ttl, u.rdata), u.name == z.origin && u.Type() == TYPE_SOA;
              && Bucket(Apply(z, u), u.name) == (if soa then Filter(Bucket(z, u.name), NotOfType(TYPE_SOA)) else Bucket(z, u.name)) + [rec]
              && Apply(z, u).soaRec == (if soa then rec else z.soaRec)
              && Apply(z, u).origin == z.origin
    ensures forall n :: n != u.name ==> Bucket(Apply(z, u), n) == Bucket(z, n)
  {
    hide Filter, Pack;
  }

  /** An in-zone add makes its owner and all names up to the origin exist. */
  lemma AddMakesExist(z: Zone, u: Record, m: Name)
    requires u.cls != CLASS_ANY && u.cls != CLASS_NONE && AtOrBelow(u.name, z.origin)
    requires !Present(z, u.name, u.Type(), u.ttl, Pack(u.rdata))
    ensures m in Apply(z, u).namesExist <==> m in z.namesExist || (AtOrBelow(u.name, m) && AtOrBelow(m, z.origin))
  {
    hide Filter, Pack;
    PathUpInZone(z.origin, u.name, m);
  }

  /** A record counts as a change exactly when its bucket changes. */
  lemma ChangesExactly(z: Zone, u: Record)
    ensures Changes(z, u) <==> Bucket(Apply(z, u), u.name) != Bucket(z, u.name)
    ensures !Changes(z, u) ==> Apply(z, u) == z
  {
    hide Filter, Pack;
    if IsDelete(u) {
      NothingSurvives(z.origin, u);
    } else if Changes(z, u) {
      assert Duplicate(u, Stored(u));
      assert Stored(u) in Bucket(Apply(z, u), u.name);
    }
  }

  lemma NothingSurvives(origin: Name, u: Record)
    ensures Filter([], Survives(origin, u)) == []
  {
  }

  // ----- a whole section -----

  /** The update record adds this record. */
  predicate Brings(u: Record, n: Name, t: uint16, ttl: int, w: seq<byte>) {
    u.cls != CLASS_ANY && u.cls != CLASS_NONE && u.name == n && u.Type() == t && u.ttl == ttl && Pack(u.rdata) == w
  }

  /** The update record deletes records of this type and data. */
  predicate Kills(origin: Name, u: Record, n: Name, t: uint16, w: seq<byte>) {
    && u.name == n && !(n == origin && (t == TYPE_SOA || t == TYPE_NS))
    && ((u.cls == CLASS_ANY && (u.Type() == TYPE_ANY || u.Type() == t)) || (u.cls == CLASS_NONE && u.Type() == t && Pack(u.rdata) == w))
  }

  /** It was there, or the i-th record of the section brought it, and nothing from then on deletes it. */
  ghost predicate LivesFrom(z: Zone, us: seq<Record>, n: Name, t: uint16, ttl: int, w: seq<byte>, i: nat) {
    && i <= |us| && (if i == 0 then Present(z, n, t, ttl, w) else Brings(us[i - 1], n, t, ttl, w))
    && forall j :: i <= j < |us| ==> !Kills(z.origin, us[j], n, t, w)
  }

  lemma StepPresent(z: Zone, u: Record, n: Name, t: uint16, ttl: int, w: seq<byte>)
    requires n != z.origin || t != TYPE_SOA
    ensures Present(Apply(z, u), n, t, ttl, w) <==> Brings(u, n, t, ttl, w) || (Present(z, n, t, ttl, w) && !Kills(z.origin, u, n, t, w))
  {
    hide Filter, Pack, Apply;
    if u.cls == CLASS_ANY || u.cls == CLASS_NONE {
      DeleteExactly(z, u);
    } else {
      AddExactly(z, u);
      if n == u.name && !Present(z, n, u.Type(), u.ttl, Pack(u.rdata)) {
        AddedPresent(z, u, t, ttl, w);
      }
    }
  }

  lemma AddedPresent(z: Zone, u: Record, t: uint16, ttl: int, w: seq<byte>)
    requires u.cls != CLASS_ANY && u.cls != CLASS_NONE && (u.name != z.origin || t != TYPE_SOA)
    requires !Present(z, u.name, u.Type(), u.ttl, Pack(u.rdata))
    ensures Present(Apply(z, u), u.name, t, ttl, w) <==> Brings(u, u.name, t, ttl, w) || Present(z, u.name, t, ttl, w)
  {
    hide Filter, Pack, Apply;
    AddExactly(z, u);
    FilterMember(Bucket(z, u.name), NotOfType(TYPE_SOA));
    var rec := Record(u.name, CLASS_IN, u.ttl, u.rdata);
    var recs := Bucket(Apply(z, u), u.name);
    assert recs[|recs| - 1] == rec;
    assert forall r :: r in recs && r != rec ==> r in Bucket(z, u.name);
    assert forall r :: r in Bucket(z, u.name) && r.Type() == t ==> r in recs;
  }

  lemma {:induction false} ApplyAllOrigin(z: Zone, us: seq<Record>)
    ensures ApplyAll(z, us).origin == z.origin
  {
    if us != [] {
      ApplyAllOrigin(z, us[..|us| - 1]);
    }
  }

  lemma LivesShorter(z: Zone, us: seq<Record>, n: Name, t: uint16, ttl: int, w: seq<byte>, i: nat)
    requires us != [] && i < |us|
    ensures LivesFrom(z, us, n, t, ttl, w, i) <==>
              LivesFrom(z, us[..|us| - 1], n, t, ttl, w, i) && !Kills(z.origin, us[|us| - 1], n, t, w)
  {
    hide Brings, Kills, Present;
    var init := us[..|us| - 1];
    assert forall j :: 0 <= j < |init| ==> init[j] == us[j];
    assert LivesFrom(z, us, n, t, ttl, w, i) ==> !Kills(z.origin, us[|us| - 1], n, t, w);
  }

  /** After the whole section a record is there exactly when it was there or was brought, and was not
      deleted after that. */
  lemma {:induction false} SectionMeaning(z: Zone, us: seq<Record>, n: Name, t: uint16, ttl: int, w: seq<byte>)
    requires n != z.origin || t != TYPE_SOA
    ensures Present(ApplyAll(z, us), n, t, ttl, w) <==> exists i: nat :: LivesFrom(z, us, n, t, ttl, w, i)
  {
    hide Apply, Present, Brings, Kills;
    if us == [] {
      assert LivesFrom(z, us, n, t, ttl, w, 0) <==> Present(z, n, t, ttl, w);
    } else {
      var k, init, u := |us|, us[..|us| - 1], us[|us| - 1];
      SectionMeaning(z, init, n, t, ttl, w);
      ApplyAllOrigin(z, init);
      StepPresent(ApplyAll(z, init), u, n, t, ttl, w);
      assert LivesFrom(z, us, n, t, ttl, w, k) <==> Brings(u, n, t, ttl, w);
      forall i: nat | i < k
        ensures LivesFrom(z, us, n, t, ttl, w, i) <==> LivesFrom(z, init, n, t, ttl, w, i) && !Kills(z.origin, u, n, t, w)
      {
        LivesShorter(z, us, n, t, ttl, w, i);
      }
      assert forall i: nat :: LivesFrom(z, us, n, t, ttl, w, i) ==> i <= k;
      assert forall i: nat :: LivesFrom(z, init, n, t, ttl, w, i) ==> i < k;
    }
  }

  // ----- the published zone -----

  lemma {:induction false} ReplacedOthers(recs: seq<Record>, rec: Record, r: Record)
    requires rec.Type() == TYPE_SOA && r.Type() != TYPE_SOA
    ensures r in ReplaceFirstSoa(recs, rec) <==> r in recs
  {
    if recs != [] {
      assert recs == [recs[0]] + recs[1..];
      if recs[0].Type() != TYPE_SOA {
        ReplacedOthers(recs[1..], rec, r);
      }
    }
  }

  lemma PublishedSame(z: Zone, us: seq<Record>, n: Name, t: uint16, ttl: int, w: seq<byte>)
    requires n != z.origin || t != TYPE_SOA
    ensures Present(UpdateZone(z, us), n, t, ttl, w) <==> Present(ApplyAll(z, us), n, t, ttl, w)
  {
    hide ApplyAll, AnyChanges, Pack, ReplaceFirstSoa, PathUp;
    var y := ApplyAll(z, us);
    ApplyAllOrigin(z, us);
    if n == y.origin && Bumpable(y.soaRec) {
      forall r: Record | r.Type() != TYPE_SOA
        ensures r in ReplaceFirstSoa(Bucket(y, n), Bumped(y.soaRec)) <==> r in Bucket(y, n)
      {
        ReplacedOthers(Bucket(y, n), Bumped(y.soaRec), r);
      }
    }
  }

  /** What an accepted UPDATE publishes, the apex SOA aside. */
  lemma UpdateMeaning(z: Zone, us: seq<Record>, n: Name, t: uint16, ttl: int, w: seq<byte>)
    requires n != z.origin || t != TYPE_SOA
    ensures Present(UpdateZone(z, us), n, t, ttl, w) <==> exists i: nat :: LivesFrom(z, us, n, t, ttl, w, i)
  {
    hide UpdateZone, ApplyAll, LivesFrom, Present;
    PublishedSame(z, us, n, t, ttl, w);
    SectionMeaning(z, us, n, t, ttl, w);
  }

  // ----- the apex SOA -----

  /** Adds the apex SOA. */
  predicate BringsSoa(origin: Name, u: Record) {
    u.cls != CLASS_ANY && u.cls != CLASS_NONE && u.name == origin && u.Type() == TYPE_SOA
  }

  /** The i-th record is the last one that adds an apex SOA, and there is none if i is 0. */
  ghost predicate LastSoaAdd(origin: Name, us: seq<Record>, i: nat) {
    && i <= |us| && (i > 0 ==> BringsSoa(origin, us[i - 1]))
    && forall j :: i <= j < |us| ==> !BringsSoa(origin, us[j])
  }

  lemma SoaStep(z: Zone, u: Record)
    requires Sound(z)
    ensures if BringsSoa(z.origin, u) then Apply(z, u).soaRec.ttl == u.ttl && Pack(Apply(z, u).soaRec.rdata) == Pack(u.rdata)
            else Apply(z, u).soaRec == z.soaRec
  {
    hide Filter, Pack, Apply, WellKeyed;
    if u.cls == CLASS_ANY || u.cls == CLASS_NONE {
      DeleteExactly(z, u);
    } else {
      AddExactly(z, u);
      if BringsSoa(z.origin, u) && Present(z, u.name, u.Type(), u.ttl, Pack(u.rdata)) {
        OnlySoa(z);
      }
    }
  }

  lemma OnlySoa(z: Zone)
    requires ApexOK(z)
    ensures forall r :: r in Bucket(z, z.origin) && r.Type() == TYPE_SOA ==> r == z.soaRec
  {
    hide Filter;
    FilterMember(Bucket(z, z.origin), OfType(TYPE_SOA));
  }

  /** The last SOA added at the apex is the zone's, with its own serial; without one the old SOA stays. */
  lemma {:induction false} ApexSoaMeaning(z: Zone, us: seq<Record>, i: nat)
    requires Sound(z) && AllInZone(z.origin, us) && UpdatesOK(z.origin, us) && LastSoaAdd(z.origin, us, i)
    ensures if i == 0 then ApplyAll(z, us).soaRec == z.soaRec
            else ApplyAll(z, us).soaRec.ttl == us[i - 1].ttl && Pack(ApplyAll(z, us).soaRec.rdata) == Pack(us[i - 1].rdata)
    decreases |us|
  {
    hide Apply, Pack, Sound, BringsSoa, UpdateShapeOK, AnyChanges;
    if us != [] {
      var init, u := us[..|us| - 1], us[|us| - 1];
      assert forall x :: x in init ==> x in us;
      ApplyAllSound(z, init);
      SoaStep(ApplyAll(z, init), u);
      if i < |us| {
        ApexSoaMeaning(z, init, i);
      }
    }
  }

  /** Publishing a change gives the SOA the next serial and leaves the rest of it alone, unless it cannot
      be written back; without a change nothing happens to it. */
  lemma BumpMeaning(z: Zone, us: seq<Record>)
    ensures var s, p := ApplyAll(z, us).soaRec, UpdateZone(z, us).soaRec;
            if AnyChanges(z, us) && Bumpable(s) then
              && p.name == s.name && p.cls == CLASS_IN && p.ttl == s.ttl && p.rdata.SoaData?
              && p.rdata.soa.serial == (s.rdata.soa.serial + 1) % 0x1_0000_0000
              && p.rdata.soa.mname == s.rdata.soa.mname && p.rdata.soa.rname == s.rdata.soa.rname
              && p.rdata.soa.refresh == s.rdata.soa.refresh && p.rdata.soa.retry == s.rdata.soa.retry
              && p.rdata.soa.expire == s.rdata.soa.expire && p.rdata.soa.minimum == s.rdata.soa.minimum
            else p == s
  {
    hide ApplyAll, AnyChanges, ReplaceFirstSoa, PathUp;
  }
}
