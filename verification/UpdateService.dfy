/** What one UPDATE request means for the set of published zones, as one atomic step. */
module UpdateService {
  import opened Names
  import opened Records
  import opened Zones
  import opened ZoneLaws
  import opened ZoneRuns
  import opened Serials
  import opened Prereqs

  type ZoneMap = map<Name, Zone>

  datatype Question = Question(name: Name, qtype: uint16)

  /** `allowed` is the verdict of the installed policy; without a policy it is false. */
  datatype UpdateRequest = UpdateRequest(
    questions: seq<Question>, prereqs: seq<Record>, updates: seq<Record>, allowed: bool)

  /** The checks made before any lock: shape, size, policy, bailiwick.  A non-positive
      `maxRecords` means no size limit. */
  function PreCheck(maxRecords: int, q: UpdateRequest): Rcode {
    if |q.questions| != 1 || q.questions[0].qtype != TYPE_SOA then FormErr
    else if maxRecords > 0 && |q.prereqs| + |q.updates| > maxRecords then FormErr
    else if !q.allowed then Refused
    else if !AllInZone(q.questions[0].name, q.prereqs) || !AllInZone(q.questions[0].name, q.updates) then NotZone
    else NoError
  }

  /** The check made under a lock, against the zones published at that moment. */
  function Check(zones: ZoneMap, q: UpdateRequest): Rcode
    requires |q.questions| == 1
  {
    var origin := q.questions[0].name;
    if origin !in zones then NotAuth
    else if PrereqCode(zones[origin], q.prereqs) != NoError then PrereqCode(zones[origin], q.prereqs)
    else if UpdatesOK(zones[origin].origin, q.updates) then NoError
    else FormErr
  }

  function Commit(zones: ZoneMap, q: UpdateRequest): ZoneMap
    requires |q.questions| == 1
  {
    if Check(zones, q) != NoError then zones
    else
      var origin := q.questions[0].name;
      zones[origin := UpdateZone(zones[origin], q.updates)]
  }

  /** The whole request as a single step: the specification the two-lock protocol must meet. */
  function ServeAtomic(maxRecords: int, zones: ZoneMap, q: UpdateRequest): (ZoneMap, Rcode) {
    if PreCheck(maxRecords, q) != NoError then (zones, PreCheck(maxRecords, q))
    else (Commit(zones, q), Check(zones, q))
  }

  // ----- the published zones -----

  /** Every zone is stored under its own origin and is well formed. */
  ghost predicate AllZonesOK(zones: ZoneMap) {
    forall k :: k in zones ==> zones[k].origin == k && ZoneOK(zones[k])
  }

  lemma CommitKeepsZonesOK(maxRecords: int, zones: ZoneMap, q: UpdateRequest)
    requires AllZonesOK(zones)
    ensures AllZonesOK(ServeAtomic(maxRecords, zones, q).0)
  {
    if PreCheck(maxRecords, q) == NoError && Check(zones, q) == NoError {
      var origin := q.questions[0].name;
      UpdateKeepsZoneOK(zones[origin], q.updates);
    }
  }

  // ----- what each reply means -----

  /** One question, for the SOA of the zone, and no more records than allowed. */
  ghost predicate Acceptable(maxRecords: int, q: UpdateRequest) {
    && |q.questions| == 1 && q.questions[0].qtype == TYPE_SOA
    && (maxRecords > 0 ==> |q.prereqs| + |q.updates| <= maxRecords)
  }

  /** Every record of both sections is owned at or below the zone's name. */
  ghost predicate Inside(q: UpdateRequest)
    requires |q.questions| == 1
  {
    forall r :: r in q.prereqs || r in q.updates ==> AtOrBelow(r.name, q.questions[0].name)
  }

  /** Deletes carry no TTL, and data exactly for class NONE; adds are of class IN and put no alias at
      the apex. */
  ghost predicate WellShaped(origin: Name, u: Record) {
    || (u.cls == CLASS_ANY && u.ttl == 0 && Pack(u.rdata) == [])
    || (u.cls == CLASS_NONE && u.ttl == 0 && Pack(u.rdata) != [])
    || (u.cls == CLASS_IN && (u.name == origin ==> u.Type() != TYPE_CNAME && u.Type() != TYPE_DNAME))
  }

  /** An admitted request for a published zone. */
  ghost predicate Served(maxRecords: int, zones: ZoneMap, q: UpdateRequest) {
    Acceptable(maxRecords, q) && q.allowed && Inside(q) && q.questions[0].name in zones
  }

  lemma ShapeExactly(origin: Name, us: seq<Record>)
    ensures UpdatesOK(origin, us) <==> forall u :: u in us ==> WellShaped(origin, u)
  {
    hide Pack;
  }

  lemma PreCheckExactly(maxRecords: int, q: UpdateRequest)
    ensures PreCheck(maxRecords, q) == FormErr <==> !Acceptable(maxRecords, q)
    ensures PreCheck(maxRecords, q) == Refused <==> Acceptable(maxRecords, q) && !q.allowed
    ensures PreCheck(maxRecords, q) == NotZone <==> Acceptable(maxRecords, q) && q.allowed && !Inside(q)
    ensures PreCheck(maxRecords, q) == NoError <==> Acceptable(maxRecords, q) && q.allowed && Inside(q)
  {
    hide AtOrBelow;
  }

  lemma PrereqCodes(z: Zone, ps: seq<Record>)
    ensures PrereqCode(z, ps) in {NoError, FormErr, NXDomain, YXDomain, NXRRSet, YXRRSet}
  {
    hide PrereqCode;
    if PrereqCode(z, ps) != NoError {
      FailureMeaning(z, ps);
    }
  }

  lemma CheckCodes(zones: ZoneMap, q: UpdateRequest)
    requires |q.questions| == 1
    ensures Check(zones, q) in {NoError, FormErr, NXDomain, YXDomain, NXRRSet, YXRRSet, NotAuth}
    ensures Check(zones, q) == NotAuth <==> q.questions[0].name !in zones
  {
    hide PrereqCode, UpdatesOK;
    if q.questions[0].name in zones {
      PrereqCodes(zones[q.questions[0].name], q.prereqs);
    }
  }

  /** The replies that do not depend on what the zone holds. */
  lemma RefusalExactly(maxRecords: int, zones: ZoneMap, q: UpdateRequest)
    ensures var rc := ServeAtomic(maxRecords, zones, q).1;
            && (rc == Refused <==> Acceptable(maxRecords, q) && !q.allowed)
            && (rc == NotZone <==> Acceptable(maxRecords, q) && q.allowed && !Inside(q))
            && (rc == NotAuth <==> Acceptable(maxRecords, q) && q.allowed && Inside(q) && q.questions[0].name !in zones)
    ensures !q.allowed ==> ServeAtomic(maxRecords, zones, q).0 == zones && ServeAtomic(maxRecords, zones, q).1 != NoError
  {
    hide PreCheck, Check, Inside;
    PreCheckExactly(maxRecords, q);
    if Acceptable(maxRecords, q) {
      CheckCodes(zones, q);
    }
  }

  /** FORMERR: the request itself is malformed, or its first failing prerequisite is, or all of those
      hold and an update record is. */
  lemma FormErrExactly(maxRecords: int, zones: ZoneMap, q: UpdateRequest)
    ensures ServeAtomic(maxRecords, zones, q).1 == FormErr <==>
              || !Acceptable(maxRecords, q)
              || (Served(maxRecords, zones, q) &&
                  var z := zones[q.questions[0].name];
                  || (exists i: nat :: FailsFirst(z, q.prereqs, FormErr, i))
                  || (PrereqsHold(z, q.prereqs) && exists u :: u in q.updates && !WellShaped(z.origin, u)))
  {
    hide PreCheck, PrereqCode, Inside, WellShaped, UpdatesOK, FailsFirst, PrereqsHold;
    PreCheckExactly(maxRecords, q);
    if Served(maxRecords, zones, q) {
      var z := zones[q.questions[0].name];
      CodeExactly(z, q.prereqs, FormErr);
      PrereqCodeMeaning(z, q.prereqs);
      ShapeExactly(z.origin, q.updates);
    }
  }

  /** The remaining refusals name the first failing prerequisite, or values that differ. */
  lemma PrereqRefusalExactly(maxRecords: int, zones: ZoneMap, q: UpdateRequest, rc: Rcode)
    requires rc in {NXDomain, YXDomain, NXRRSet, YXRRSet}
    ensures ServeAtomic(maxRecords, zones, q).1 == rc <==>
              && Served(maxRecords, zones, q)
              && var z := zones[q.questions[0].name];
              || (exists i: nat :: FailsFirst(z, q.prereqs, rc, i))
              || (rc == NXRRSet && (forall p :: p in q.prereqs ==> ExistenceHolds(z, p)) && !ValuesHold(z, q.prereqs))
  {
    hide PreCheck, PrereqCode, Inside, UpdatesOK, FailsFirst, ExistenceHolds, ValuesHold;
    PreCheckExactly(maxRecords, q);
    if Served(maxRecords, zones, q) {
      CodeExactly(zones[q.questions[0].name], q.prereqs, rc);
    }
  }

  /** A request is accepted exactly when it is well formed, allowed, in the zone, and its prerequisites
      and shape hold in the zone it replaces; a rejected one changes nothing; no request touches
      another zone. */
  lemma ServeMeaning(maxRecords: int, zones: ZoneMap, q: UpdateRequest)
    ensures
      var (zones', rc) := ServeAtomic(maxRecords, zones, q);
      && (rc != NoError ==> zones' == zones)
      && (rc == NoError <==>
            && Served(maxRecords, zones, q)
            && var z := zones[q.questions[0].name];
            PrereqsHold(z, q.prereqs) && forall u :: u in q.updates ==> WellShaped(z.origin, u))
      && (rc == NoError ==>
            && var o := q.questions[0].name;
            && UpdatesOK(zones[o].origin, q.updates) && AllInZone(o, q.updates) && AllInZone(o, q.prereqs)
            && zones'.Keys == zones.Keys && zones'[o] == UpdateZone(zones[o], q.updates)
            && forall k :: k in zones && k != o ==> zones'[k] == zones[k])
  {
    hide PreCheck, PrereqCode, WellShaped, UpdatesOK, PrereqsHold, UpdateZone;
    PreCheckExactly(maxRecords, q);
    if Served(maxRecords, zones, q) {
      var z := zones[q.questions[0].name];
      PrereqCodeMeaning(z, q.prereqs);
      ShapeExactly(z.origin, q.updates);
    }
  }

  lemma BumpAdvances(r: Record)
    ensures SerialOf(if Bumpable(r) then Bumped(r) else r) == Advance(SerialOf(r), 1) <==> Bumpable(r)
  {
    assert Advance(SerialOf(r), 1) != SerialOf(r);
  }

  /** The hook sees consecutive serials exactly when the SOA it started from can be bumped. */
  lemma NoticeIsConsecutive(z: Zone, us: seq<Record>)
    requires AnyChanges(z, us)
    ensures
      var (before, after) := Notice(z, us).value;
      after == Advance(before, 1) <==> Bumpable(ApplyAll(z, us).soaRec)
  {
    BumpAdvances(ApplyAll(z, us).soaRec);
  }
}
