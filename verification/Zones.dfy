/** The value of one loaded zone and what an UPDATE does to it.  Everything here is a function
    on zone values; module ZoneStore holds the mutable index that computes these values. */
module Zones {
  import opened Names
  import opened Records

  /** The lookup-friendly form of a zone: records bucketed by owner, the names that exist (owners
      and empty non-terminals), and the apex SOA kept at hand. */
  datatype Zone = Zone(origin: Name, soaRec: Record, byName: map<Name, seq<Record>>, namesExist: set<Name>)

  function Bucket(z: Zone, n: Name): seq<Record> {
    if n in z.byName then z.byName[n] else []
  }

  // ----- well-formed zones -----

  /** A stored bucket is non-empty, has a single owner, and lies inside the zone. */
  ghost predicate BucketOK(origin: Name, n: Name, recs: seq<Record>) {
    recs != [] && AtOrBelow(n, origin) && forall r :: r in recs ==> r.name == n
  }

  ghost predicate WellKeyed(z: Zone) {
    forall n :: n in z.byName ==> BucketOK(z.origin, n, z.byName[n])
  }

  /** The apex has exactly one SOA and neither CNAME nor DNAME. */
  ghost predicate ApexBucketOK(recs: seq<Record>, soaRec: Record) {
    && Filter(recs, OfType(TYPE_SOA)) == [soaRec]
    && forall r :: r in recs ==> r.Type() != TYPE_CNAME && r.Type() != TYPE_DNAME
  }

  /** The one apex SOA is the one kept at hand. */
  ghost predicate ApexOK(z: Zone) {
    ApexBucketOK(Bucket(z, z.origin), z.soaRec)
  }

  /** `m` lies between the origin and some record owner. */
  ghost predicate OnSomePath(z: Zone, m: Name) {
    AtOrBelow(m, z.origin) && exists n :: n in z.byName && AtOrBelow(n, m)
  }

  ghost predicate NamesExact(z: Zone) {
    forall m :: m in z.namesExist <==> OnSomePath(z, m)
  }

  ghost predicate ZoneOK(z: Zone) {
    WellKeyed(z) && ApexOK(z) && NamesExact(z)
  }

  // ----- existing names -----

  /** The names marked when a record owned by `n` is stored: `n` and its ancestors, stopping at
      the origin or, failing that, at the root. */
  function PathUp(origin: Name, n: Name): (s: set<Name>)
  {
    if n == origin || n.Root? then {n} else {n} + PathUp(origin, n.parent)
  }

  lemma {:induction false} PathUpInZone(origin: Name, n: Name, m: Name)
    requires AtOrBelow(n, origin)
    ensures m in PathUp(origin, n) <==> AtOrBelow(n, m) && AtOrBelow(m, origin)
  {
    if n == origin {
      if AtOrBelow(n, m) && AtOrBelow(m, n) {
        AtOrBelowDepth(n, m);
        AtOrBelowDepth(m, n);
      }
    } else {
      PathUpInZone(origin, n.parent, m);
    }
  }

  /** The existing names recomputed from the buckets; the origin always exists. */
  function Rebuilt(z: Zone): Zone {
    z.(namesExist := {z.origin} +
         set n, m | n in z.byName && z.byName[n] != [] && m in PathUp(z.origin, z.byName[n][0].name) :: m)
  }

  lemma RebuiltExact(z: Zone)
    requires WellKeyed(z) && z.origin in z.byName
    ensures NamesExact(Rebuilt(z))
  {
    var z' := Rebuilt(z);
    forall m
      ensures m in z'.namesExist <==> OnSomePath(z', m)
    {
      forall n | n in z.byName
        ensures z.byName[n] != [] && z.byName[n][0].name == n
        ensures m in PathUp(z.origin, n) <==> AtOrBelow(n, m) && AtOrBelow(m, z.origin)
      {
        assert BucketOK(z.origin, n, z.byName[n]) && z.byName[n][0] in z.byName[n];
        PathUpInZone(z.origin, n, m);
      }
      if m == z.origin {
        assert AtOrBelow(z.origin, m);
      }
    }
  }

  // ----- one update record -----

  predicate Matches(u: Record, r: Record) {
    if u.cls == CLASS_ANY then u.Type() == TYPE_ANY || r.Type() == u.Type()
    else r.Type() == u.Type() && RDataEqual(r.rdata, u.rdata)
  }

  /** A delete leaves a record alone unless it matches; apex SOA and NS records always stay. */
  function Survives(origin: Name, u: Record): Record -> bool {
    (r: Record) => !Matches(u, r) || (u.name == origin && (r.Type() == TYPE_SOA || r.Type() == TYPE_NS))
  }

  predicate IsDelete(u: Record) {
    u.cls == CLASS_ANY || u.cls == CLASS_NONE
  }

  predicate IsApexSoaAdd(origin: Name, u: Record) {
    !IsDelete(u) && u.name == origin && u.Type() == TYPE_SOA
  }

  /** What an add stores: the record, with class IN whatever the wire said. */
  function Stored(u: Record): Record {
    u.(cls := CLASS_IN)
  }

  predicate Duplicate(u: Record, r: Record) {
    r.Type() == u.Type() && r.ttl == u.ttl && RDataEqual(r.rdata, u.rdata)
  }

  /** Empty buckets are never stored. */
  function WithBucket(m: map<Name, seq<Record>>, n: Name, recs: seq<Record>): map<Name, seq<Record>> {
    if recs == [] then m - {n} else m[n := recs]
  }

  function Deleted(z: Zone, u: Record): seq<Record> {
    Filter(Bucket(z, u.name), Survives(z.origin, u))
  }

  function Added(z: Zone, u: Record): seq<Record> {
    (if IsApexSoaAdd(z.origin, u) then Filter(Bucket(z, u.name), NotOfType(TYPE_SOA)) else Bucket(z, u.name))
    + [Stored(u)]
  }

  predicate Changes(z: Zone, u: Record) {
    if IsDelete(u) then |Deleted(z, u)| < |Bucket(z, u.name)|
    else forall r :: r in Bucket(z, u.name) ==> !Duplicate(u, r)
  }

  /** The zone after one record of the update section. */
  function Apply(z: Zone, u: Record): Zone {
    if !Changes(z, u) then z
    else if IsDelete(u) then z.(byName := WithBucket(z.byName, u.name, Deleted(z, u)))
    else
      z.(byName := z.byName[u.name := Added(z, u)],
         soaRec := if IsApexSoaAdd(z.origin, u) then Stored(u) else z.soaRec,
         namesExist := z.namesExist + PathUp(z.origin, u.name))
  }

  /** The zone after the records in order, and whether any of them changed it. */
  function ApplyAll(z: Zone, us: seq<Record>): Zone {
    if us == [] then z else Apply(ApplyAll(z, us[..|us| - 1]), us[|us| - 1])
  }

  predicate AnyChanges(z: Zone, us: seq<Record>) {
    us != [] && (AnyChanges(z, us[..|us| - 1]) || Changes(ApplyAll(z, us[..|us| - 1]), us[|us| - 1]))
  }

  // ----- the serial bump -----

  const MAX_TIMER: nat := 0x7fff_ffff

  /** The SOA constructor refuses timers above 2^31 - 1 seconds, and the payload of a record with
      no data is not an SOA value; in both cases the bump silently does nothing. */
  predicate Bumpable(r: Record) {
    && r.rdata.SoaData?
    && r.rdata.soa.refresh / SECOND <= MAX_TIMER && r.rdata.soa.retry / SECOND <= MAX_TIMER
    && r.rdata.soa.expire / SECOND <= MAX_TIMER && r.rdata.soa.minimum / SECOND <= MAX_TIMER
  }

  function Bumped(r: Record): Record
    requires r.rdata.SoaData?
  {
    Record(r.name, CLASS_IN, r.ttl,
           SoaData(r.rdata.soa.(serial := (r.rdata.soa.serial + 1) % 0x1_0000_0000)))
  }

  /** `recs` with its first SOA replaced, or the new one appended when there is none. */
  function ReplaceFirstSoa(recs: seq<Record>, rec: Record): seq<Record> {
    if recs == [] then [rec]
    else if recs[0].Type() == TYPE_SOA then [rec] + recs[1..]
    else [recs[0]] + ReplaceFirstSoa(recs[1..], rec)
  }

  function BumpSoa(z: Zone): Zone {
    if !Bumpable(z.soaRec) then z
    else
      z.(soaRec := Bumped(z.soaRec),
         byName := z.byName[z.origin := ReplaceFirstSoa(Bucket(z, z.origin), Bumped(z.soaRec))])
  }

  /** The zone an accepted UPDATE publishes. */
  function UpdateZone(z: Zone, us: seq<Record>): Zone {
    if AnyChanges(z, us) then Rebuilt(BumpSoa(ApplyAll(z, us))) else ApplyAll(z, us)
  }

  /** The serials reported to the update hook, when the update changed the zone. */
  function SerialOf(r: Record): uint32 {
    if r.rdata.SoaData? then r.rdata.soa.serial else 0
  }

  function Notice(z: Zone, us: seq<Record>): Option<(uint32, uint32)> {
    if AnyChanges(z, us) then Some((SerialOf(ApplyAll(z, us).soaRec), SerialOf(BumpSoa(ApplyAll(z, us)).soaRec)))
    else None
  }

  // ----- structural validation -----

  predicate UpdateShapeOK(origin: Name, u: Record) {
    if u.cls == CLASS_ANY then u.ttl == 0 && !HasRData(u)
    else if u.cls == CLASS_NONE then u.ttl == 0 && HasRData(u)
    else u.cls == CLASS_IN && !(u.name == origin && (u.Type() == TYPE_CNAME || u.Type() == TYPE_DNAME))
  }

  predicate UpdatesOK(origin: Name, us: seq<Record>) {
    forall u :: u in us ==> UpdateShapeOK(origin, u)
  }

  predicate AllInZone(origin: Name, us: seq<Record>) {
    forall u :: u in us ==> AtOrBelow(u.name, origin)
  }
}
