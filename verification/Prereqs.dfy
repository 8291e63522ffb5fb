/** The prerequisite and update-shape checks an UPDATE passes before it may change a zone. */
module Prereqs {
  import opened Names
  import opened Records
  import opened Zones

  // ----- what the checks mean -----

  predicate NameInUse(z: Zone, n: Name) {
    n in z.byName
  }

  predicate RRsetExists(z: Zone, n: Name, t: uint16) {
    exists r :: r in Bucket(z, n) && r.Type() == t
  }

  /** A prerequisite that asks about existence, not values.  Value-dependent ones (class IN) are
      judged together, by `ValuesHold`. */
  predicate ExistenceHolds(z: Zone, p: Record) {
    && p.ttl == 0
    && (p.cls == CLASS_IN || ((p.cls == CLASS_ANY || p.cls == CLASS_NONE) && !HasRData(p)))
    && (p.cls == CLASS_ANY ==> if p.Type() == TYPE_ANY then NameInUse(z, p.name) else RRsetExists(z, p.name, p.Type()))
    && (p.cls == CLASS_NONE ==> if p.Type() == TYPE_ANY then !NameInUse(z, p.name) else !RRsetExists(z, p.name, p.Type()))
  }

  function Wanted(ps: seq<Record>, n: Name, t: uint16): set<seq<byte>> {
    set p | p in ps && p.cls == CLASS_IN && p.name == n && p.Type() == t :: Pack(p.rdata)
  }

  function Held(z: Zone, n: Name, t: uint16): set<seq<byte>> {
    set r | r in Bucket(z, n) && r.Type() == t :: Pack(r.rdata)
  }

  predicate ValuesHold(z: Zone, ps: seq<Record>) {
    forall p :: p in ps && p.cls == CLASS_IN ==> Wanted(ps, p.name, p.Type()) == Held(z, p.name, p.Type())
  }

  predicate PrereqsHold(z: Zone, ps: seq<Record>) {
    (forall p :: p in ps ==> ExistenceHolds(z, p)) && ValuesHold(z, ps)
  }

  /** The verdict does not depend on the order of the prerequisites, nor on repetitions. */
  lemma PrereqsOrderFree(z: Zone, ps: seq<Record>, qs: seq<Record>)
    requires forall p :: p in ps <==> p in qs
    ensures PrereqsHold(z, ps) <==> PrereqsHold(z, qs)
  {
    forall n, t
      ensures Wanted(ps, n, t) == Wanted(qs, n, t)
    {
    }
  }

  // ----- the response code -----

  /** The code for one prerequisite on its own. */
  function CheckOne(z: Zone, p: Record): Rcode {
    if p.ttl != 0 then FormErr
    else if p.cls == CLASS_ANY then
      if HasRData(p) then FormErr
      else if p.Type() == TYPE_ANY then (if NameInUse(z, p.name) then NoError else NXDomain)
      else if RRsetExists(z, p.name, p.Type()) then NoError else NXRRSet
    else if p.cls == CLASS_NONE then
      if HasRData(p) then FormErr
      else if p.Type() == TYPE_ANY then (if NameInUse(z, p.name) then YXDomain else NoError)
      else if RRsetExists(z, p.name, p.Type()) then YXRRSet else NoError
    else if p.cls == CLASS_IN then NoError
    else FormErr
  }

  /** The first failing code in section order. */
  function FirstFailure(z: Zone, ps: seq<Record>): (rc: Rcode) {
    if ps == [] then NoError
    else if CheckOne(z, ps[0]) != NoError then CheckOne(z, ps[0])
    else FirstFailure(z, ps[1..])
  }

  function PrereqCode(z: Zone, ps: seq<Record>): Rcode {
    if FirstFailure(z, ps) != NoError then FirstFailure(z, ps)
    else if ValuesHold(z, ps) then NoError
    else NXRRSet
  }

  lemma {:induction false} FirstFailureNone(z: Zone, ps: seq<Record>)
    ensures FirstFailure(z, ps) == NoError <==> forall p :: p in ps ==> ExistenceHolds(z, p)
  {
    if ps != [] {
      FirstFailureNone(z, ps[1..]);
      assert forall p :: p in ps <==> p == ps[0] || p in ps[1..];
      assert CheckOne(z, ps[0]) == NoError <==> ExistenceHolds(z, ps[0]);
    }
  }

  /** The code is NoError exactly when every prerequisite holds. */
  lemma PrereqCodeMeaning(z: Zone, ps: seq<Record>)
    ensures PrereqCode(z, ps) == NoError <==> PrereqsHold(z, ps)
  {
    FirstFailureNone(z, ps);
  }

  /** What a failing code says about the section. */
  ghost predicate Says(z: Zone, ps: seq<Record>, rc: Rcode) {
    match rc
    case FormErr =>
      exists p :: p in ps && (p.ttl != 0 || (p.cls != CLASS_IN && (HasRData(p) || (p.cls != CLASS_ANY && p.cls != CLASS_NONE))))
    case NXDomain => exists p :: p in ps && p.cls == CLASS_ANY && p.Type() == TYPE_ANY && !NameInUse(z, p.name)
    case YXDomain => exists p :: p in ps && p.cls == CLASS_NONE && p.Type() == TYPE_ANY && NameInUse(z, p.name)
    case YXRRSet => exists p :: p in ps && p.cls == CLASS_NONE && p.Type() != TYPE_ANY && RRsetExists(z, p.name, p.Type())
    case NXRRSet =>
      || (exists p :: p in ps && p.cls == CLASS_ANY && p.Type() != TYPE_ANY && !RRsetExists(z, p.name, p.Type()))
      || exists p :: p in ps && p.cls == CLASS_IN && Wanted(ps, p.name, p.Type()) != Held(z, p.name, p.Type())
    case _ => false
  }

  lemma {:induction false} FirstFailureFails(z: Zone, ps: seq<Record>)
    ensures FirstFailure(z, ps) != NoError ==> exists p :: p in ps && CheckOne(z, p) == FirstFailure(z, ps)
  {
    if ps != [] && CheckOne(z, ps[0]) == NoError {
      FirstFailureFails(z, ps[1..]);
    }
  }

  /** Only an unmet section has anything to say. */
  lemma SaysMeansUnmet(z: Zone, ps: seq<Record>, rc: Rcode)
    requires Says(z, ps, rc)
    ensures !PrereqsHold(z, ps)
  {
    hide HasRData, RRsetExists, NameInUse, Wanted, Held;
  }

  lemma CheckOneSays(z: Zone, ps: seq<Record>, p: Record)
    requires p in ps && CheckOne(z, p) != NoError
    ensures Says(z, ps, CheckOne(z, p))
  {
    hide HasRData, RRsetExists, NameInUse;
  }

  /** Every other code names a prerequisite that fails in just that way. */
  lemma FailureMeaning(z: Zone, ps: seq<Record>)
    requires PrereqCode(z, ps) != NoError
    ensures Says(z, ps, PrereqCode(z, ps))
  {
    hide CheckOne, HasRData, RRsetExists, NameInUse;
    FirstFailureFails(z, ps);
    if FirstFailure(z, ps) != NoError {
      var p :| p in ps && CheckOne(z, p) == FirstFailure(z, ps);
      CheckOneSays(z, ps, p);
    }
  }

  /** How one prerequisite fails: malformed, or well formed and untrue. */
  ghost predicate FailsWith(z: Zone, p: Record, rc: Rcode) {
    var malformed := p.ttl != 0 || (p.cls != CLASS_IN && (Pack(p.rdata) != [] || (p.cls != CLASS_ANY && p.cls != CLASS_NONE)));
    match rc
    case FormErr => malformed
    case NXDomain => !malformed && p.cls == CLASS_ANY && p.Type() == TYPE_ANY && p.name !in z.byName
    case YXDomain => !malformed && p.cls == CLASS_NONE && p.Type() == TYPE_ANY && p.name in z.byName
    case NXRRSet => !malformed && p.cls == CLASS_ANY && p.Type() != TYPE_ANY && forall r :: r in Bucket(z, p.name) ==> r.Type() != p.Type()
    case YXRRSet => !malformed && p.cls == CLASS_NONE && p.Type() != TYPE_ANY && exists r :: r in Bucket(z, p.name) && r.Type() == p.Type()
    case _ => false
  }

  lemma CheckOneExactly(z: Zone, p: Record, rc: Rcode)
    requires rc != NoError
    ensures CheckOne(z, p) == rc <==> FailsWith(z, p, rc)
    ensures FailsWith(z, p, rc) ==> !ExistenceHolds(z, p)
  {
    hide Pack;
  }

  /** The i-th prerequisite is the first one that fails. */
  ghost predicate FailsFirst(z: Zone, ps: seq<Record>, rc: Rcode, i: nat) {
    i < |ps| && FailsWith(z, ps[i], rc) && forall j :: 0 <= j < i ==> ExistenceHolds(z, ps[j])
  }

  lemma {:induction false} FirstFailureExactly(z: Zone, ps: seq<Record>, rc: Rcode)
    requires rc != NoError
    ensures FirstFailure(z, ps) == rc <==> exists i: nat :: FailsFirst(z, ps, rc, i)
  {
    hide CheckOne, FailsWith, ExistenceHolds;
    if ps != [] {
      FirstFailureExactly(z, ps[1..], rc);
      CheckOneExactly(z, ps[0], rc);
      OneHolds(z, ps[0]);
      if CheckOne(z, ps[0]) == NoError {
        forall i: nat
          ensures FailsFirst(z, ps[1..], rc, i) <==> FailsFirst(z, ps, rc, i + 1)
        {
          FailsShift(z, ps, rc, i);
        }
        assert forall i: nat :: FailsFirst(z, ps, rc, i) ==> i > 0 && FailsFirst(z, ps[1..], rc, i - 1);
      } else {
        assert forall i: nat :: FailsFirst(z, ps, rc, i) ==> i == 0;
        assert FailsFirst(z, ps, rc, 0) <==> FailsWith(z, ps[0], rc);
      }
    }
  }

  lemma FailsShift(z: Zone, ps: seq<Record>, rc: Rcode, i: nat)
    requires ps != [] && ExistenceHolds(z, ps[0])
    ensures FailsFirst(z, ps[1..], rc, i) <==> FailsFirst(z, ps, rc, i + 1)
  {
    hide FailsWith, ExistenceHolds;
    var rest := ps[1..];
    assert forall j :: 0 <= j < |rest| ==> rest[j] == ps[j + 1];
    if FailsFirst(z, ps, rc, i + 1) {
      forall j | 0 <= j < i
        ensures ExistenceHolds(z, rest[j])
      {
        assert ExistenceHolds(z, ps[j + 1]);
      }
    }
  }

  lemma OneHolds(z: Zone, p: Record)
    ensures CheckOne(z, p) == NoError <==> ExistenceHolds(z, p)
  {
  }

  /** A code is returned exactly when the first failing prerequisite fails that way; the values of whole
      RRsets are compared only after that, and give NXRRSet. */
  lemma CodeExactly(z: Zone, ps: seq<Record>, rc: Rcode)
    requires rc != NoError
    ensures PrereqCode(z, ps) == rc <==>
              || (exists i: nat :: FailsFirst(z, ps, rc, i))
              || (rc == NXRRSet && (forall p :: p in ps ==> ExistenceHolds(z, p)) && !ValuesHold(z, ps))
  {
    hide FailsFirst, ExistenceHolds, ValuesHold;
    FirstFailureExactly(z, ps, rc);
    FirstFailureNone(z, ps);
  }

  /** A class-IN prerequisite asks for this value. */
  ghost predicate Asks(ps: seq<Record>, n: Name, t: uint16, w: seq<byte>) {
    exists p :: p in ps && p.cls == CLASS_IN && p.name == n && p.Type() == t && Pack(p.rdata) == w
  }

  ghost predicate Has(z: Zone, n: Name, t: uint16, w: seq<byte>) {
    exists r :: r in Bucket(z, n) && r.Type() == t && Pack(r.rdata) == w
  }

  /** Class-IN prerequisites hold exactly when, for each owner and type they name, the section and the
      zone have the same packed values. */
  lemma ValuesExactly(z: Zone, ps: seq<Record>)
    ensures ValuesHold(z, ps) <==>
              forall p, w :: p in ps && p.cls == CLASS_IN ==> (Asks(ps, p.name, p.Type(), w) <==> Has(z, p.name, p.Type(), w))
  {
    hide Pack;
    forall n, t, w
      ensures w in Wanted(ps, n, t) <==> Asks(ps, n, t, w)
      ensures w in Held(z, n, t) <==> Has(z, n, t, w)
    {
    }
    hide Wanted, Held, Asks, Has;
    forall p | p in ps && p.cls == CLASS_IN
      ensures Wanted(ps, p.name, p.Type()) == Held(z, p.name, p.Type()) <==>
                forall w :: Asks(ps, p.name, p.Type(), w) <==> Has(z, p.name, p.Type(), w)
    {
      if forall w :: Asks(ps, p.name, p.Type(), w) <==> Has(z, p.name, p.Type(), w) {
        assert Wanted(ps, p.name, p.Type()) == Held(z, p.name, p.Type());
      }
    }
  }

  // ----- the scan -----

  type RRKey = (Name, uint16)
  type Collected = map<RRKey, set<seq<byte>>>

  /** `want` gathers the class-IN prerequisites of `ps` by owner and type. */
  ghost predicate Gathered(want: Collected, ps: seq<Record>) {
    && (forall k :: k in want ==> want[k] == Wanted(ps, k.0, k.1) && want[k] != {})
    && (forall p :: p in ps && p.cls == CLASS_IN ==> (p.name, p.Type()) in want)
  }

  function Gather(want: Collected, p: Record): Collected {
    var k := (p.name, p.Type());
    want[k := (if k in want then want[k] else {}) + {Pack(p.rdata)}]
  }

  lemma WantedSnoc(ps: seq<Record>, p: Record, n: Name, t: uint16)
    ensures Wanted(ps + [p], n, t) ==
            Wanted(ps, n, t) + (if p.cls == CLASS_IN && p.name == n && p.Type() == t then {Pack(p.rdata)} else {})
  {
    assert forall q :: q in ps + [p] <==> q in ps || q == p;
  }

  lemma GatherStep(want: Collected, ps: seq<Record>, p: Record)
    requires Gathered(want, ps)
    ensures Gathered(if p.cls == CLASS_IN then Gather(want, p) else want, ps + [p])
  {
    var want' := if p.cls == CLASS_IN then Gather(want, p) else want;
    forall k | k in want'
      ensures want'[k] == Wanted(ps + [p], k.0, k.1) && want'[k] != {}
    {
      WantedSnoc(ps, p, k.0, k.1);
      if k !in want {
        assert Wanted(ps, k.0, k.1) == {};
      }
    }
  }

  lemma SubsetOfSameSize<T>(a: set<T>, b: set<T>)
    requires |a| == |b| && a <= b
    ensures a == b
  {
    if a != b {
      var x :| x in b && x !in a;
      SubsetSize(a, b - {x});
    }
  }

  /** The packed rdata of the type-`t` records of one bucket, compared with a wanted set. */
  method SameValues(recs: seq<Record>, t: uint16, wanted: set<seq<byte>>) returns (same: bool)
    ensures same <==> wanted == set r | r in recs && r.Type() == t :: Pack(r.rdata)
  {
    var got: set<seq<byte>> := {};
    for i := 0 to |recs|
      invariant got == set r | r in recs[..i] && r.Type() == t :: Pack(r.rdata)
    {
      assert recs[..i + 1] == recs[..i] + [recs[i]];
      if recs[i].Type() == t {
        got := got + {Pack(recs[i].rdata)};
      }
    }
    assert recs[..|recs|] == recs;
    if |got| != |wanted| {
      return false;
    }
    var rest := wanted;
    while rest != {}
      invariant rest <= wanted
      invariant wanted - rest <= got
    {
      var v :| v in rest;
      if v !in got {
        return false;
      }
      rest := rest - {v};
    }
    SubsetOfSameSize(wanted, got);
    return true;
  }

  /** The prerequisite scan: one pass over the section, then one comparison per gathered RRset, in
      whatever order the map yields them. */
  method EvaluatePrereqs(z: Zone, ps: seq<Record>) returns (rc: Rcode)
    ensures rc == PrereqCode(z, ps)
  {
    var want: Collected := map[];
    var i := 0;
    while i < |ps|
      invariant 0 <= i <= |ps|
      invariant FirstFailure(z, ps) == FirstFailure(z, ps[i..])
      invariant Gathered(want, ps[..i])
    {
      var p := ps[i];
      assert ps[i..][0] == p && ps[i..][1..] == ps[i + 1..];
      assert ps[..i + 1] == ps[..i] + [p];
      GatherStep(want, ps[..i], p);
      if p.ttl != 0 {
        return FormErr;
      }
      if p.cls == CLASS_ANY {
        if HasRData(p) {
          return FormErr;
        }
        if p.Type() == TYPE_ANY {
          if p.name !in z.byName {
            return NXDomain;
          }
        } else if !RRsetExists(z, p.name, p.Type()) {
          return NXRRSet;
        }
      } else if p.cls == CLASS_NONE {
        if HasRData(p) {
          return FormErr;
        }
        if p.Type() == TYPE_ANY {
          if p.name in z.byName {
            return YXDomain;
          }
        } else if RRsetExists(z, p.name, p.Type()) {
          return YXRRSet;
        }
      } else if p.cls == CLASS_IN {
        want := Gather(want, p);
      } else {
        return FormErr;
      }
      i := i + 1;
    }
    assert ps[..|ps|] == ps;
    rc := CompareGathered(z, ps, want);
  }

  method CompareGathered(z: Zone, ps: seq<Record>, want: Collected) returns (rc: Rcode)
    requires Gathered(want, ps)
    ensures rc == if ValuesHold(z, ps) then NoError else NXRRSet
  {
    var todo := want.Keys;
    while todo != {}
      invariant todo <= want.Keys
      invariant forall k :: k in want && k !in todo ==> want[k] == Held(z, k.0, k.1)
    {
      var k :| k in todo;
      if k.0 !in z.byName {
        MismatchFails(z, ps, want, k);
        return NXRRSet;
      }
      var same := SameValues(z.byName[k.0], k.1, want[k]);
      if !same {
        MismatchFails(z, ps, want, k);
        return NXRRSet;
      }
      todo := todo - {k};
    }
    return NoError;
  }

  lemma MismatchFails(z: Zone, ps: seq<Record>, want: Collected, k: RRKey)
    requires Gathered(want, ps) && k in want && want[k] != Held(z, k.0, k.1)
    ensures !ValuesHold(z, ps)
  {
    var v :| v in want[k];
    var p :| p in ps && p.cls == CLASS_IN && p.name == k.0 && p.Type() == k.1 && Pack(p.rdata) == v;
  }

  /** The structural check of the update section. */
  method ValidateUpdates(origin: Name, us: seq<Record>) returns (rc: Rcode)
    ensures rc == if UpdatesOK(origin, us) then NoError else FormErr
  {
    for i := 0 to |us|
      invariant forall j :: 0 <= j < i ==> UpdateShapeOK(origin, us[j])
    {
      var u := us[i];
      assert u in us;
      if u.cls == CLASS_ANY {
        if u.ttl != 0 || HasRData(u) {
          return FormErr;
        }
      } else if u.cls == CLASS_NONE {
        if u.ttl != 0 || !HasRData(u) {
          return FormErr;
        }
      } else if u.cls == CLASS_IN {
        if u.name == origin && (u.Type() == TYPE_CNAME || u.Type() == TYPE_DNAME) {
          return FormErr;
        }
      } else {
        return FormErr;
      }
    }
    return NoError;
  }
}
