/** The index-based lookup against the flat record list it stands for: which names exist, where
    the cuts are, when a name is denied, and what an answer section may contain. */
module LookupLaws {
  import opened Names
  import opened Records
  import opened Zones
  import opened Lookup

  // ----- the flat view of a zone -----

  function OwnedAt(recs: seq<Record>, n: Name): seq<Record> {
    Filter(recs, OwnedBy(n))
  }

  /** `recs` lists the records of `z`: each bucket is what the list holds for that owner. */
  ghost predicate Lists(z: Zone, recs: seq<Record>) {
    forall n :: OwnedAt(recs, n) == Bucket(z, n)
  }

  /** `n` lies in the zone and some record is owned at or below it. */
  ghost predicate Exists(origin: Name, recs: seq<Record>, n: Name) {
    AtOrBelow(n, origin) && exists r :: r in recs && AtOrBelow(r.name, n)
  }

  /** `c` is the deepest ancestor-or-self of `n` satisfying `p`. */
  ghost predicate Deepest(n: Name, p: Name -> bool, c: Name) {
    AtOrBelow(n, c) && p(c) && forall d :: AtOrBelow(n, d) && p(d) ==> AtOrBelow(c, d)
  }

  lemma DeepestUnique(n: Name, p: Name -> bool, c: Name, d: Name)
    requires Deepest(n, p, c) && Deepest(n, p, d)
    ensures c == d
  {
    AtOrBelowDepth(c, d);
    AtOrBelowDepth(d, c);
  }

  /** Climbing finds the deepest satisfying name, and only that one. */
  lemma NearestDeepest(n: Name, p: Name -> bool, d: Name)
    ensures Deepest(n, p, d) <==> Nearest(n, p) == Some(d)
  {
    if Deepest(n, p, d) {
      NearestIsDeepest(n, p, d);
      var c := Nearest(n, p).value;
      AtOrBelowDepth(c, d);
      AtOrBelowDepth(d, c);
    }
    if Nearest(n, p) == Some(d) {
      forall c | AtOrBelow(n, c) && p(c)
        ensures AtOrBelow(d, c)
      {
        NearestIsDeepest(n, p, c);
      }
    }
  }

  lemma ListsOwners(z: Zone, recs: seq<Record>)
    requires Lists(z, recs) && WellKeyed(z)
    ensures forall r :: r in recs ==> r.name in z.byName
    ensures forall n :: n in z.byName ==> exists r :: r in recs && r.name == n
    ensures forall n :: n in z.byName <==> OwnedAt(recs, n) != []
  {
    forall r | r in recs
      ensures r.name in z.byName
    {
      FilterMember(recs, OwnedBy(r.name));
      assert r in OwnedAt(recs, r.name);
    }
    forall n | n in z.byName
      ensures exists r :: r in recs && r.name == n
    {
      assert BucketOK(z.origin, n, z.byName[n]);
      FilterMember(recs, OwnedBy(n));
      assert OwnedAt(recs, n)[0] in OwnedAt(recs, n);
    }
    forall n
      ensures n in z.byName <==> OwnedAt(recs, n) != []
    {
      if n in z.byName {
        assert BucketOK(z.origin, n, z.byName[n]);
      }
    }
  }

  /** The set of existing names is the flat notion of existence. */
  lemma ExistsIsIndexed(z: Zone, recs: seq<Record>, n: Name)
    requires Lists(z, recs) && ZoneOK(z)
    ensures n in z.namesExist <==> Exists(z.origin, recs, n)
  {
    ListsOwners(z, recs);
    if n in z.namesExist {
      assert OnSomePath(z, n);
      var m :| m in z.byName && AtOrBelow(m, n);
      var r :| r in recs && r.name == m;
    }
    if Exists(z.origin, recs, n) {
      var r :| r in recs && AtOrBelow(r.name, n);
      assert r.name in z.byName;
      assert OnSomePath(z, n);
    }
  }

  // ----- the first alias of a bucket -----

  function IsCname(): Record -> bool {
    (r: Record) => r.rdata.CnameData?
  }

  function IsDname(): Record -> bool {
    (r: Record) => r.rdata.DnameData?
  }

  lemma {:induction false} FirstCnameExactly(recs: seq<Record>, i: nat)
    ensures FirstAt(recs, IsCname(), i) ==> FirstCname(recs) == Some(recs[i])
    ensures FirstCname(recs).None? <==> forall r :: r in recs ==> !r.rdata.CnameData?
  {
    if recs != [] && !recs[0].rdata.CnameData? {
      if i > 0 {
        FirstShifts(recs, IsCname(), i - 1);
      }
      FirstCnameExactly(recs[1..], if i > 0 then i - 1 else 0);
      assert recs == [recs[0]] + recs[1..];
    } else if recs != [] {
      assert recs[0] in recs;
    }
  }

  lemma {:induction false} FirstDnameExactly(recs: seq<Record>, i: nat)
    ensures FirstAt(recs, IsDname(), i) ==> FirstDname(recs) == Some(recs[i])
    ensures FirstDname(recs).None? <==> forall r :: r in recs ==> !r.rdata.DnameData?
  {
    if recs != [] && !recs[0].rdata.DnameData? {
      if i > 0 {
        FirstShifts(recs, IsDname(), i - 1);
      }
      FirstDnameExactly(recs[1..], if i > 0 then i - 1 else 0);
      assert recs == [recs[0]] + recs[1..];
    } else if recs != [] {
      assert recs[0] in recs;
    }
  }

  // ----- delegation -----

  ghost function NsCut(origin: Name, recs: seq<Record>): Name -> bool {
    (n: Name) => StrictlyBelow(n, origin) && Filter(OwnedAt(recs, n), OfType(TYPE_NS)) != []
  }

  /** The delegation found is the NS set of the deepest cut strictly below the origin; there is
      none exactly when no name on the path is a cut. */
  lemma {:induction false} DelegationIsNearestCut(z: Zone, recs: seq<Record>, n: Name)
    requires Lists(z, recs) && AtOrBelow(n, z.origin)
    ensures Delegation(z, n) == [] <==> forall c :: AtOrBelow(n, c) ==> !NsCut(z.origin, recs)(c)
    ensures forall c :: Deepest(n, NsCut(z.origin, recs), c) ==>
              Delegation(z, n) == Filter(OwnedAt(recs, c), OfType(TYPE_NS))
  {
    var cut := NsCut(z.origin, recs);
    if n == z.origin {
      forall c | AtOrBelow(n, c)
        ensures !cut(c)
      {
        if StrictlyBelow(c, n) {
          AtOrBelowDepth(n, c);
          AtOrBelowDepth(c.parent, n);
        }
      }
    } else {
      assert StrictlyBelow(n, z.origin);
      if Filter(Bucket(z, n), OfType(TYPE_NS)) != [] {
        assert cut(n);
        forall c | Deepest(n, cut, c)
          ensures c == n
        {
          AtOrBelowDepth(n, c);
          AtOrBelowDepth(c, n);
        }
      } else {
        DelegationIsNearestCut(z, recs, n.parent);
        assert !cut(n);
        forall c | Deepest(n, cut, c)
          ensures Deepest(n.parent, cut, c)
        {
        }
      }
    }
  }

  // ----- one name of the chase, from the flat list alone -----

  ghost function ExistsIn(origin: Name, recs: seq<Record>): Name -> bool {
    (n: Name) => Exists(origin, recs, n)
  }

  function HasDname(recs: seq<Record>): Name -> bool {
    (n: Name) => FirstDname(OwnedAt(recs, n)).Some?
  }

  function DnameOf(recs: seq<Record>, d: Name): Record
    requires HasDname(recs)(d)
  {
    FirstDname(OwnedAt(recs, d)).value
  }

  /** `d` is the deepest DNAME owner strictly above `n`, and the substitution is representable. */
  ghost predicate RedirectsVia(recs: seq<Record>, n: Name, d: Name) {
    && n.Sub? && Deepest(n.parent, HasDname(recs), d)
    && Representable(Graft(n, d, DnameOf(recs, d).rdata.target))
  }

  /** `e` is the longest existing strict ancestor of `n`, and its wildcard has records. */
  ghost predicate WildVia(origin: Name, recs: seq<Record>, n: Name, e: Name) {
    n.Sub? && Deepest(n.parent, ExistsIn(origin, recs), e) && OwnedAt(recs, Wildcard(e)) != []
  }

  function RedirectOf(recs: seq<Record>, n: Name, d: Name): Redirect
    requires HasDname(recs)(d)
  {
    Redirect(DnameOf(recs, d), Graft(n, d, DnameOf(recs, d).rdata.target))
  }

  ghost predicate RedirectOutcome(recs: seq<Record>, n: Name, out: Outcome) {
    exists d :: RedirectsVia(recs, n, d) && out == RedirectChase(n, RedirectOf(recs, n, d))
  }

  ghost predicate WildOutcome(origin: Name, recs: seq<Record>, n: Name, t: uint16, out: Outcome) {
    exists e :: WildVia(origin, recs, n, e) && out == FromMatch(MatchOf(OwnedAt(recs, Wildcard(e)), t), n, true)
  }

  /** The outcome RFC 1034, RFC 4592 and RFC 6672 prescribe for a name, read off the list. */
  ghost predicate FlatOutcome(origin: Name, recs: seq<Record>, n: Name, t: uint16, out: Outcome) {
    if OwnedAt(recs, n) != [] then out == FromMatch(MatchOf(OwnedAt(recs, n), t), n, false)
    else if Exists(origin, recs, n) then out == NoData
    else if exists d :: RedirectsVia(recs, n, d) then RedirectOutcome(recs, n, out)
    else if exists e :: WildVia(origin, recs, n, e) then WildOutcome(origin, recs, n, t, out)
    else out == NoName
  }

  /** The prescription is a complete one: it leaves no choice. */
  lemma FlatOutcomeUnique(origin: Name, recs: seq<Record>, n: Name, t: uint16, a: Outcome, b: Outcome)
    requires FlatOutcome(origin, recs, n, t, a) && FlatOutcome(origin, recs, n, t, b)
    ensures a == b
  {
    if n.Sub? {
      forall c, d | Deepest(n.parent, HasDname(recs), c) && Deepest(n.parent, HasDname(recs), d)
        ensures c == d
      {
        DeepestUnique(n.parent, HasDname(recs), c, d);
      }
      forall c, d | Deepest(n.parent, ExistsIn(origin, recs), c) && Deepest(n.parent, ExistsIn(origin, recs), d)
        ensures c == d
      {
        DeepestUnique(n.parent, ExistsIn(origin, recs), c, d);
      }
    }
  }

  function RedirectVia(recs: seq<Record>, q: Name, d: Option<Name>): Option<Redirect>
    requires d.Some? ==> HasDname(recs)(d.value)
  {
    if d.Some? && Representable(Graft(q, d.value, DnameOf(recs, d.value).rdata.target))
    then Some(RedirectOf(recs, q, d.value)) else None
  }

  lemma {:induction false} RedirectByNearest(z: Zone, recs: seq<Record>, q: Name, cur: Name)
    requires Lists(z, recs) && AtOrBelow(q, cur)
    ensures RedirectAbove(z, q, cur) ==
            if cur.Root? then None else RedirectVia(recs, q, Nearest(cur.parent, HasDname(recs)))
  {
    if cur.Sub? {
      StrictBelowStep(q, cur);
      assert OwnedAt(recs, cur.parent) == Bucket(z, cur.parent);
      if FirstDname(Bucket(z, cur.parent)).None? {
        RedirectByNearest(z, recs, q, cur.parent);
      }
    }
  }

  lemma RedirectIsFlat(z: Zone, recs: seq<Record>, n: Name)
    requires Lists(z, recs)
    ensures RedirectAbove(z, n, n).Some? ==>
              exists d :: RedirectsVia(recs, n, d) && RedirectAbove(z, n, n).value == RedirectOf(recs, n, d)
    ensures RedirectAbove(z, n, n).None? ==> forall d :: !RedirectsVia(recs, n, d)
  {
    assert AtOrBelow(n, n);
    RedirectByNearest(z, recs, n, n);
    if RedirectAbove(z, n, n).Some? {
      var d := Nearest(n.parent, HasDname(recs)).value;
      NearestDeepest(n.parent, HasDname(recs), d);
      assert RedirectsVia(recs, n, d);
    } else {
      forall d
        ensures !RedirectsVia(recs, n, d)
      {
        if n.Sub? {
          NearestDeepest(n.parent, HasDname(recs), d);
        }
      }
    }
  }

  lemma {:induction false} StrictBelowStep(q: Name, cur: Name)
    requires AtOrBelow(q, cur) && cur.Sub?
    ensures StrictlyBelow(q, cur.parent)
  {
    if q != cur {
      StrictBelowStep(q.parent, cur);
    }
  }

  /** Every stored owner is a representable name. */
  predicate OwnersFit(recs: seq<Record>) {
    forall r :: r in recs ==> Representable(r.name)
  }

  lemma EncloserIsFlat(z: Zone, recs: seq<Record>, n: Name, e: Name)
    requires ZoneOK(z) && Lists(z, recs) && n.Sub?
    ensures Encloser(z, n) == Some(e) <==> Deepest(n.parent, ExistsIn(z.origin, recs), e)
  {
    var p, q := (m: Name) => m in z.namesExist, ExistsIn(z.origin, recs);
    forall c | AtOrBelow(n.parent, c)
      ensures p(c) == q(c)
    {
      ExistsIsIndexed(z, recs, c);
    }
    NearestAgrees(n.parent, p, q);
    NearestDeepest(n.parent, q, e);
  }

  lemma OwnerFits(recs: seq<Record>, n: Name)
    requires OwnersFit(recs) && OwnedAt(recs, n) != []
    ensures Representable(n)
  {
    FilterMember(recs, OwnedBy(n));
    assert OwnedAt(recs, n)[0] in OwnedAt(recs, n);
  }

  lemma WildcardIsFlat(z: Zone, recs: seq<Record>, n: Name)
    requires ZoneOK(z) && Lists(z, recs) && OwnersFit(recs)
    ensures WildcardBucket(z, n) != [] ==>
              exists e :: WildVia(z.origin, recs, n, e) && WildcardBucket(z, n) == OwnedAt(recs, Wildcard(e))
    ensures WildcardBucket(z, n) == [] ==> forall e :: !WildVia(z.origin, recs, n, e)
  {
    if WildcardBucket(z, n) != [] {
      var e := Encloser(z, n).value;
      EncloserIsFlat(z, recs, n, e);
      assert WildVia(z.origin, recs, n, e);
    } else {
      forall e
        ensures !WildVia(z.origin, recs, n, e)
      {
        if WildVia(z.origin, recs, n, e) {
          EncloserIsFlat(z, recs, n, e);
          OwnerFits(recs, Wildcard(e));
        }
      }
    }
  }

  /** The indexed step is the prescribed one, for every name and type, in or out of the zone. */
  lemma AtIsFlat(z: Zone, recs: seq<Record>, n: Name, t: uint16)
    requires ZoneOK(z) && Lists(z, recs) && OwnersFit(recs)
    ensures FlatOutcome(z.origin, recs, n, t, At(z, n, t))
  {
    ListsOwners(z, recs);
    assert OwnedAt(recs, n) == Bucket(z, n);
    if n !in z.byName {
      ExistsIsIndexed(z, recs, n);
      if n !in z.namesExist {
        RedirectIsFlat(z, recs, n);
        if RedirectAbove(z, n, n).None? {
          WildcardIsFlat(z, recs, n);
        }
      }
    }
  }

  // ----- whole lookups -----

  lemma SameOutcome(y: Zone, z: Zone, recs: seq<Record>, n: Name, t: uint16)
    requires ZoneOK(y) && ZoneOK(z) && Lists(y, recs) && Lists(z, recs) && OwnersFit(recs)
    requires y.origin == z.origin
    ensures At(y, n, t) == At(z, n, t)
  {
    AtIsFlat(y, recs, n, t);
    AtIsFlat(z, recs, n, t);
    FlatOutcomeUnique(z.origin, recs, n, t, At(y, n, t), At(z, n, t));
  }

  lemma {:induction false} SameChase(f: Name -> Outcome, g: Name -> Outcome, soa: Record, n: Name, chain: nat, answer: seq<Record>)
    requires chain <= MAX_CHAIN && forall m :: f(m) == g(m)
    ensures ChaseFrom(f, soa, n, chain, answer) == ChaseFrom(g, soa, n, chain, answer)
    decreases MAX_CHAIN - chain
  {
    if chain < MAX_CHAIN && f(n).Chase? {
      SameChase(f, g, soa, f(n).next, chain + 1, answer + f(n).recs);
    }
  }

  lemma {:induction false} SameDelegation(y: Zone, z: Zone, n: Name)
    requires y.origin == z.origin && forall m :: Bucket(y, m) == Bucket(z, m)
    ensures Delegation(y, n) == Delegation(z, n)
  {
    if n != z.origin && n.Sub? {
      SameDelegation(y, z, n.parent);
    }
  }

  lemma {:induction false} SameGlue(y: Zone, z: Zone, ns: seq<Record>)
    requires forall m :: Bucket(y, m) == Bucket(z, m)
    ensures Glue(y, ns) == Glue(z, ns)
  {
    if ns != [] {
      SameGlue(y, z, ns[..|ns| - 1]);
    }
  }

  /** Answers depend on the record list alone: two well-formed indexes over the same records,
      however they were reached, answer every query alike. */
  lemma LookupDependsOnRecords(y: Zone, z: Zone, recs: seq<Record>, q: Name, t: uint16)
    requires ZoneOK(y) && ZoneOK(z) && Lists(y, recs) && Lists(z, recs) && OwnersFit(recs)
    requires y.origin == z.origin && y.soaRec == z.soaRec
    ensures LookupOf(y, q, t) == LookupOf(z, q, t)
  {
    forall m
      ensures Bucket(y, m) == Bucket(z, m)
    {
      assert OwnedAt(recs, m) == Bucket(y, m);
    }
    SameDelegation(y, z, q);
    SameGlue(y, z, Delegation(y, q));
    forall m
      ensures Outcomes(y, t)(m) == Outcomes(z, t)(m)
    {
      SameOutcome(y, z, recs, m, t);
    }
    SameChase(Outcomes(y, t), Outcomes(z, t), z.soaRec, q, 0, []);
  }

  lemma {:induction false} DeniedOnlyAtStart(at: Name -> Outcome, soa: Record, n: Name, chain: nat, answer: seq<Record>)
    requires chain <= MAX_CHAIN
    ensures ChaseFrom(at, soa, n, chain, answer).rcode == NXDomain <==> chain == 0 && at(n) == NoName
    decreases MAX_CHAIN - chain
  {
    if chain < MAX_CHAIN && at(n).Chase? {
      DeniedOnlyAtStart(at, soa, at(n).next, chain + 1, answer + at(n).recs);
    }
  }

  lemma ExactlyNoName(origin: Name, recs: seq<Record>, n: Name, t: uint16, out: Outcome)
    requires FlatOutcome(origin, recs, n, t, out)
    ensures out == NoName <==>
              && OwnedAt(recs, n) == [] && !Exists(origin, recs, n)
              && (forall d :: !RedirectsVia(recs, n, d))
              && (forall e :: !WildVia(origin, recs, n, e))
  {
  }

  /** NXDOMAIN is returned exactly when no name on the path is a cut, no record is owned at or
      below the name, the deepest DNAME above it gives no representable substitution, and the
      wildcard of its longest existing ancestor has no records. */
  lemma DeniedExactlyWhen(z: Zone, recs: seq<Record>, q: Name, t: uint16)
    requires ZoneOK(z) && Lists(z, recs) && OwnersFit(recs) && AtOrBelow(q, z.origin)
    ensures LookupOf(z, q, t).rcode == NXDomain <==>
              && (forall c :: AtOrBelow(q, c) ==> !NsCut(z.origin, recs)(c))
              && (forall r :: r in recs ==> !AtOrBelow(r.name, q))
              && (forall d :: !RedirectsVia(recs, q, d))
              && (forall e :: !WildVia(z.origin, recs, q, e))
  {
    DelegationIsNearestCut(z, recs, q);
    AtIsFlat(z, recs, q, t);
    ExactlyNoName(z.origin, recs, q, t, At(z, q, t));
    OwnedMeansExists(z, recs, q);
    DeniedOnlyAtStart(Outcomes(z, t), z.soaRec, q, 0, []);
  }

  lemma OwnedMeansExists(z: Zone, recs: seq<Record>, q: Name)
    requires AtOrBelow(q, z.origin)
    ensures OwnedAt(recs, q) == [] && !Exists(z.origin, recs, q) <==> forall r :: r in recs ==> !AtOrBelow(r.name, q)
  {
    FilterMember(recs, OwnedBy(q));
    if OwnedAt(recs, q) != [] {
      assert OwnedAt(recs, q)[0] in OwnedAt(recs, q);
      assert AtOrBelow(q, q);
    }
  }

  // ----- referrals -----

  lemma GlueForExactly(z: Zone, recs: seq<Record>, ns: Record, r: Record)
    requires Lists(z, recs)
    ensures r in GlueFor(z, ns) <==>
            ns.rdata.NsData? && r.name == ns.rdata.target && r in recs && (r.Type() == TYPE_A || r.Type() == TYPE_AAAA)
  {
    if ns.rdata.NsData? {
      FilterMember(Bucket(z, ns.rdata.target), IsAddress());
      FilterMember(recs, OwnedBy(ns.rdata.target));
    }
  }

  /** Glue is exactly the zone's own addresses of the servers named. */
  lemma {:induction false} GlueExactly(z: Zone, recs: seq<Record>, ns: seq<Record>, r: Record)
    requires Lists(z, recs)
    ensures r in Glue(z, ns) <==>
            && r in recs && (r.Type() == TYPE_A || r.Type() == TYPE_AAAA)
            && exists s :: s in ns && s.rdata.NsData? && s.rdata.target == r.name
  {
    hide Lists, GlueFor;
    if ns != [] {
      var init, last := ns[..|ns| - 1], ns[|ns| - 1];
      assert ns == init + [last];
      GlueExactly(z, recs, init, r);
      GlueForExactly(z, recs, last, r);
    }
  }

  lemma {:induction false} ChaseAuthority(at: Name -> Outcome, soa: Record, n: Name, chain: nat, answer: seq<Record>)
    requires chain <= MAX_CHAIN && (chain == 0 ==> answer == [])
    ensures var res := ChaseFrom(at, soa, n, chain, answer);
            && res.aa && res.additional == []
            && res.authority == if chain == 0 && (at(n).NoData? || at(n).NoName?) then [soa] else []
    decreases MAX_CHAIN - chain
  {
    if chain < MAX_CHAIN && at(n).Chase? {
      ChaseAuthority(at, soa, at(n).next, chain + 1, answer + at(n).recs);
    }
  }

  /** A response is a referral exactly when a cut lies on the path: then it carries the nearest
      cut's servers and their glue and nothing else.  Otherwise it is authoritative, and carries
      the SOA exactly when the first name has no answer. */
  lemma ReferralExactly(z: Zone, recs: seq<Record>, q: Name, t: uint16, c: Name, r: Record)
    requires Lists(z, recs) && AtOrBelow(q, z.origin)
    ensures var res := LookupOf(z, q, t);
            && (res.aa <==> forall x :: AtOrBelow(q, x) ==> !NsCut(z.origin, recs)(x))
            && (res.aa ==> res.additional == []
                           && res.authority == if At(z, q, t).NoData? || At(z, q, t).NoName? then [z.soaRec] else [])
            && (Deepest(q, NsCut(z.origin, recs), c) ==>
                  && res.answer == [] && res.rcode == NoError
                  && res.authority == Filter(OwnedAt(recs, c), OfType(TYPE_NS))
                  && (r in res.additional <==>
                      && r in recs && (r.Type() == TYPE_A || r.Type() == TYPE_AAAA)
                      && exists s :: s in res.authority && s.rdata.NsData? && s.rdata.target == r.name))
  {
    hide Lists, At, Delegation, Glue, OwnedAt, ChaseFrom, NsCut;
    DelegationIsNearestCut(z, recs, q);
    GlueExactly(z, recs, Delegation(z, q), r);
    ChaseAuthority(Outcomes(z, t), z.soaRec, q, 0, []);
  }
}
