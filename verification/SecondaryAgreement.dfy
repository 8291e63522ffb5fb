/** Exactly when a secondary answers every query like its primary. */
module SecondaryAgreement {
  import opened Names
  import opened Records
  import opened Zones
  import opened ZoneRuns
  import opened Lookup
  import opened LookupLaws
  import opened Secondary

  // ----- what a transfer takes away -----

  /** Only SOA records lie at and below the name, and the apex does not: it does not arrive. */
  ghost predicate Hollow(z: Zone, n: Name) {
    n in z.namesExist && forall m :: m in z.byName && AtOrBelow(m, n) ==> m != z.origin && Plain(z.byName[m]) == []
  }

  ghost function Arriving(z: Zone): Name -> bool {
    (m: Name) => m in z.namesExist && !Hollow(z, m)
  }

  /** What the wildcard of the longest arriving ancestor delivers. */
  ghost function ArrivingWild(z: Zone, n: Name): seq<Record> {
    if n.Root? then []
    else
      match Nearest(n.parent, Arriving(z))
      case None => []
      case Some(e) => if Representable(Wildcard(e)) then Plain(Bucket(z, Wildcard(e))) else []
  }

  /** The name has an SOA set of its own below the apex, or one by wildcard. */
  ghost predicate ShowsSoa(z: Zone, n: Name) {
    || (n != z.origin && Soas(Bucket(z, n)) != [])
    || (n !in z.namesExist && RedirectAbove(z, n, n).None? && Soas(WildcardBucket(z, n)) != [])
  }

  /** The name, or the one it takes its wildcard from, does not arrive, and what lies above it then
      gives an answer where the primary has none. */
  ghost predicate ShowsThrough(z: Zone, n: Name, t: uint16) {
    if n in z.namesExist then Hollow(z, n) && (RedirectAbove(z, n, n).Some? || MatchOf(ArrivingWild(z, n), t) != Final([]))
    else
      && RedirectAbove(z, n, n).None? && Encloser(z, n).Some? && Hollow(z, Encloser(z, n).value)
      && MatchOf(ArrivingWild(z, n), t) != Final([])
  }

  ghost predicate Shows(z: Zone, n: Name, t: uint16) {
    (t == TYPE_SOA && ShowsSoa(z, n)) || ShowsThrough(z, n, t)
  }

  lemma TrimmedExists(z: Zone, n: Name)
    requires ZoneOK(z)
    ensures n in Trimmed(z).namesExist <==> Arriving(z)(n)
  {
    hide Filter, Plain, Trimmed, WellKeyed, ApexOK;
    TrimmedOK(z);
    ApexSoaThere(z);
    var w := Trimmed(z);
    forall m
      ensures m in w.byName <==> m in z.byName && (m == z.origin || Plain(z.byName[m]) != [])
    {
      TrimmedOwner(z, m);
    }
    assert n in w.namesExist <==> OnSomePath(w, n);
    assert n in z.namesExist <==> OnSomePath(z, n);
  }

  lemma TrimmedOwner(z: Zone, m: Name)
    requires ZoneOK(z)
    ensures m in Trimmed(z).byName <==> m in z.byName && (m == z.origin || Plain(z.byName[m]) != [])
  {
    hide Filter, PathUp, ZoneOK;
  }

  lemma TrimmedWild(z: Zone, n: Name)
    requires ZoneOK(z)
    ensures WildcardBucket(Trimmed(z), n) == ArrivingWild(z, n)
  {
    hide Trimmed, Plain, Bucket, Hollow, Representable, ZoneOK, Arriving;
    var w := Trimmed(z);
    if n.Sub? {
      forall m
        ensures m in w.namesExist <==> Arriving(z)(m)
      {
        TrimmedExists(z, m);
      }
      NearestAgrees(n.parent, m => m in w.namesExist, Arriving(z));
      if Encloser(w, n).Some? {
        var e := Encloser(w, n).value;
        TrimmedBucket(z, Wildcard(e));
        ArrivesInside(z, e);
        BelowApex(z, e);
      }
    }
  }

  lemma ArrivesInside(z: Zone, e: Name)
    ensures Arriving(z)(e) ==> e in z.namesExist
  {
  }

  lemma {:induction false} TrimmedRedirect(z: Zone, q: Name, cur: Name)
    ensures RedirectAbove(Trimmed(z), q, cur) == RedirectAbove(z, q, cur)
  {
    hide Bucket, Trimmed, Plain, Substitute, FirstDname;
    if cur.Sub? {
      TrimmedBucket(z, cur.parent);
      AliasesArePlain(Bucket(z, cur.parent));
      TrimmedRedirect(z, q, cur.parent);
    }
  }

  // ----- one name of the chase -----

  predicate Nothing(o: Outcome) {
    o.NoData? || o.NoName?
  }

  /** The same, as far as an answer section shows. */
  predicate SameShown(a: Outcome, b: Outcome) {
    a == b || (Nothing(a) && Nothing(b))
  }

  /** An SOA set against none, or nothing against something. */
  ghost predicate Visible(a: Outcome, b: Outcome) {
    || (a.Answer? && a.recs != [] && a.recs[0].Type() == TYPE_SOA && StartsPlain(b))
    || (Nothing(a) && !Nothing(b) && b.recs != [])
  }

  lemma TrimMatch(a: seq<Record>, t: uint16)
    requires t != TYPE_SOA || Soas(a) == []
    ensures MatchOf(Plain(a), t) == MatchOf(a, t)
  {
    hide Filter, FirstCname, FirstDname;
    AliasesArePlain(a);
    PlainAgain(a);
    if t != TYPE_SOA {
      PlainType(a, t);
    }
  }

  lemma NothingMatches(t: uint16)
    ensures MatchOf([], t) == Final([])
  {
  }

  /** The primary has nothing, the secondary does not have the name: the wildcard decides. */
  lemma WildDecides(bucket: seq<Record>, n: Name, t: uint16, a: Outcome)
    requires Nothing(a)
    ensures var b := if bucket != [] then FromMatch(MatchOf(bucket, t), n, true) else NoName;
            if MatchOf(bucket, t) != Final([]) then Visible(a, b) else SameShown(a, b)
  {
    hide Filter;
    NothingMatches(t);
  }

  lemma UnnamedAt(z: Zone, n: Name, t: uint16)
    requires ZoneOK(z) && n !in z.namesExist
    ensures n !in z.byName && n != z.origin
    ensures RedirectAbove(z, n, n).Some? ==> At(z, n, t) == RedirectChase(n, RedirectAbove(z, n, n).value)
    ensures RedirectAbove(z, n, n).None? ==>
              At(z, n, t) == if WildcardBucket(z, n) != [] then FromMatch(MatchOf(WildcardBucket(z, n), t), n, true) else NoName
  {
    hide RedirectAbove, WildcardBucket, MatchOf, FromMatch, ApexOK;
    OwnersExist(z, n);
    ApexSoaThere(z);
    OwnersExist(z, z.origin);
  }

  lemma OwnersExist(z: Zone, n: Name)
    requires ZoneOK(z)
    ensures n in z.byName ==> n in z.namesExist
  {
    if n in z.byName {
      assert BucketOK(z.origin, n, z.byName[n]) && AtOrBelow(n, n);
      assert OnSomePath(z, n);
    }
  }

  lemma HollowAt(z: Zone, n: Name, t: uint16)
    requires ZoneOK(z) && Hollow(z, n) && (t != TYPE_SOA || Soas(Bucket(z, n)) == [])
    ensures At(z, n, t) == NoData
  {
    hide Filter, Plain, Soas, MatchOf, ZoneOK;
    if n in z.byName {
      assert AtOrBelow(n, n);
      TrimMatch(Bucket(z, n), t);
      NothingMatches(t);
    }
  }

  /** A name that does not arrive. */
  lemma HollowDecides(z: Zone, n: Name, t: uint16)
    requires ZoneOK(z) && Hollow(z, n) && (t != TYPE_SOA || Soas(Bucket(z, n)) == [])
    ensures if ShowsThrough(z, n, t) then Visible(At(z, n, t), At(Trimmed(z), n, t)) else SameShown(At(z, n, t), At(Trimmed(z), n, t))
  {
    hide Trimmed, ArrivingWild, WildcardBucket, Hollow, RedirectAbove, MatchOf, FromMatch, ZoneOK, Soas, At;
    HollowAt(z, n, t);
    TrimmedOK(z);
    TrimmedExists(z, n);
    TrimmedRedirect(z, n, n);
    TrimmedWild(z, n);
    HollowNamed(z, n);
    UnnamedAt(Trimmed(z), n, t);
    WildDecides(ArrivingWild(z, n), n, t, NoData);
  }

  lemma HollowNamed(z: Zone, n: Name)
    ensures Hollow(z, n) ==> n in z.namesExist && !Arriving(z)(n)
    ensures n !in z.namesExist ==> !Arriving(z)(n)
    ensures n in z.namesExist && !Hollow(z, n) ==> Arriving(z)(n)
  {
  }

  /** A name that arrives. */
  lemma ArrivingDecides(z: Zone, n: Name, t: uint16)
    requires ZoneOK(z) && n in z.namesExist && !Hollow(z, n) && (t != TYPE_SOA || n == z.origin || Soas(Bucket(z, n)) == [])
    ensures At(z, n, t) == At(Trimmed(z), n, t)
  {
    hide Trimmed, Hollow, MatchOf, FromMatch, ZoneOK, Soas, Plain, Arriving, RedirectAbove, WildcardBucket;
    var w := Trimmed(z);
    TrimmedOK(z);
    TrimmedExists(z, n);
    HollowNamed(z, n);
    TrimmedBucket(z, n);
    TrimMatch(if n == z.origin then [] else Bucket(z, n), t) by {
      FilterNothing();
    }
    NothingMatches(t);
    KeyedIffHeld(z, n);
    KeyedIffHeld(w, n);
    EmptyMatch(n);
  }

  lemma EmptyMatch(n: Name)
    ensures FromMatch(Final([]), n, false) == NoData
  {
  }

  lemma SameEncloser(z: Zone, n: Name)
    requires ZoneOK(z) && Encloser(z, n).Some? && !Hollow(z, Encloser(z, n).value)
    ensures ArrivingWild(z, n) == Plain(WildcardBucket(z, n))
  {
    hide Plain, Bucket, Hollow, Representable, ZoneOK;
    var e := Encloser(z, n).value;
    var p := (m: Name) => m in z.namesExist;
    FilterNothing();
    NearestDeepest(n.parent, p, e);
    NearestDeepest(n.parent, Arriving(z), e);
  }

  lemma HollowWild(z: Zone, n: Name)
    requires ZoneOK(z) && Encloser(z, n).Some? && Hollow(z, Encloser(z, n).value)
    ensures Plain(WildcardBucket(z, n)) == []
  {
    hide Plain, Encloser, Representable, ZoneOK;
    var e := Encloser(z, n).value;
    FilterNothing();
    assert AtOrBelow(Wildcard(e), e);
  }

  lemma NoEncloser(z: Zone, n: Name)
    requires Encloser(z, n).None?
    ensures ArrivingWild(z, n) == [] && WildcardBucket(z, n) == []
  {
    hide Hollow;
    if n.Sub? && Nearest(n.parent, Arriving(z)).Some? {
      var e := Nearest(n.parent, Arriving(z)).value;
      NearestIsDeepest(n.parent, m => m in z.namesExist, e);
    }
  }

  lemma MatchNothing(bucket: seq<Record>, n: Name, t: uint16)
    requires MatchOf(bucket, t) == Final([])
    ensures Nothing(if bucket != [] then FromMatch(MatchOf(bucket, t), n, true) else NoName)
  {
  }

  /** A name that is not there, and is not redirected. */
  lemma UnnamedWildDecides(z: Zone, n: Name, t: uint16, a: Outcome, b: Outcome)
    requires ZoneOK(z) && n !in z.namesExist && RedirectAbove(z, n, n).None?
    requires t != TYPE_SOA || Soas(WildcardBucket(z, n)) == []
    requires a == if WildcardBucket(z, n) != [] then FromMatch(MatchOf(WildcardBucket(z, n), t), n, true) else NoName
    requires b == if ArrivingWild(z, n) != [] then FromMatch(MatchOf(ArrivingWild(z, n), t), n, true) else NoName
    ensures if ShowsThrough(z, n, t) then Visible(a, b) else SameShown(a, b)
  {
    hide ArrivingWild, WildcardBucket, Encloser, Hollow, RedirectAbove, MatchOf, FromMatch, ZoneOK, Soas, Plain;
    var bucket := WildcardBucket(z, n);
    TrimMatch(bucket, t);
    NothingMatches(t);
    if Encloser(z, n).None? {
      NoEncloser(z, n);
    } else if Hollow(z, Encloser(z, n).value) {
      HollowWild(z, n);
      MatchNothing(bucket, n, t);
      WildDecides(ArrivingWild(z, n), n, t, a);
    } else {
      SameEncloser(z, n);
      FilterNothing();
      if Plain(bucket) == [] {
        MatchNothing(bucket, n, t);
      }
    }
  }

  lemma UnnamedDecides(z: Zone, n: Name, t: uint16)
    requires ZoneOK(z) && n !in z.namesExist && !(t == TYPE_SOA && ShowsSoa(z, n))
    ensures if ShowsThrough(z, n, t) then Visible(At(z, n, t), At(Trimmed(z), n, t)) else SameShown(At(z, n, t), At(Trimmed(z), n, t))
  {
    hide Trimmed, ArrivingWild, WildcardBucket, Hollow, RedirectAbove, MatchOf, FromMatch, ZoneOK, Soas, At;
    hide Visible, SameShown, Encloser, RedirectChase;
    TrimmedOK(z);
    TrimmedExists(z, n);
    TrimmedRedirect(z, n, n);
    TrimmedWild(z, n);
    HollowNamed(z, n);
    UnnamedAt(z, n, t);
    UnnamedAt(Trimmed(z), n, t);
    if RedirectAbove(z, n, n).None? {
      UnnamedWildDecides(z, n, t, At(z, n, t), At(Trimmed(z), n, t));
    } else {
      SameIsSame(At(z, n, t), At(Trimmed(z), n, t));
    }
  }

  lemma SameIsSame(a: Outcome, b: Outcome)
    requires a == b
    ensures SameShown(a, b)
  {
  }

  lemma SoaShown(z: Zone, n: Name)
    requires ZoneOK(z) && ShowsSoa(z, n)
    ensures Visible(At(z, n, TYPE_SOA), At(Trimmed(z), n, TYPE_SOA))
  {
    hide Trimmed, WildcardBucket, RedirectAbove, ZoneOK, Soas, At, Bucket, StartsPlain;
    TrimmedOK(z);
    TrimmedPlain(z);
    if n != z.origin && Soas(Bucket(z, n)) != [] {
      SoaAnswered(z, n);
      NotPlainFirst(z, n);
    } else {
      UnnamedAt(z, n, TYPE_SOA);
      WildSoaFirst(WildcardBucket(z, n), n);
    }
    TrimmedOrigin(z);
    PlainOutcome(Trimmed(z), n);
  }

  lemma WildSoaFirst(bucket: seq<Record>, n: Name)
    requires Soas(bucket) != []
    ensures bucket != []
    ensures var out := FromMatch(MatchOf(bucket, TYPE_SOA), n, true); out.Answer? && out.recs != [] && out.recs[0].Type() == TYPE_SOA
  {
    hide Filter;
    FilterNothing();
    FilterMember(bucket, OfType(TYPE_SOA));
    assert Soas(bucket)[0] in Soas(bucket);
  }

  /** One name differs visibly if it shows, and not if it does not. */
  lemma StepDecides(z: Zone, n: Name, t: uint16)
    requires ZoneOK(z)
    ensures if Shows(z, n, t) then Visible(At(z, n, t), At(Trimmed(z), n, t)) else SameShown(At(z, n, t), At(Trimmed(z), n, t))
  {
    hide Trimmed, ZoneOK, At, Visible, SameShown, Hollow, Soas, RedirectAbove, ArrivingWild, WildcardBucket, MatchOf, Bucket;
    if t == TYPE_SOA && ShowsSoa(z, n) {
      SoaShown(z, n);
    } else if n !in z.namesExist {
      UnnamedDecides(z, n, t);
    } else if Hollow(z, n) {
      HollowBelow(z, n);
      HollowDecides(z, n, t);
    } else {
      ArrivingDecides(z, n, t);
      SameIsSame(At(z, n, t), At(Trimmed(z), n, t));
    }
  }

  lemma HollowBelow(z: Zone, n: Name)
    requires ZoneOK(z) && Hollow(z, n)
    ensures n != z.origin
  {
    ApexSoaThere(z);
  }

  // ----- along the chase -----

  /** Where `k` links lead from `n`. */
  function Lead(at: Name -> Outcome, n: Name, k: nat): Option<Name>
    decreases k
  {
    if k == 0 then Some(n) else if at(n).Chase? then Lead(at, at(n).next, k - 1) else None
  }

  lemma VisibleDiffers(at: Name -> Outcome, bt: Name -> Outcome, soa: Record, n: Name, chain: nat, answer: seq<Record>)
    requires chain < MAX_CHAIN && (chain == 0 ==> answer == []) && Visible(at(n), bt(n))
    ensures ChaseFrom(at, soa, n, chain, answer).answer != ChaseFrom(bt, soa, n, chain, answer).answer
  {
    var k := |answer|;
    if bt(n).Chase? {
      ChaseExtends(bt, soa, bt(n).next, chain + 1, answer + bt(n).recs);
      assert (answer + bt(n).recs)[k] == bt(n).recs[0];
    }
    if at(n).Answer? {
      assert (answer + at(n).recs)[k] == at(n).recs[0];
    }
  }

  /** A visible difference anywhere along the chase makes the answers differ. */
  lemma {:induction false} PathDiffers(
    at: Name -> Outcome, bt: Name -> Outcome, soa: Record, n: Name, chain: nat, answer: seq<Record>, k: nat)
    requires chain + k < MAX_CHAIN && (chain == 0 ==> answer == [])
    requires Lead(at, n, k).Some? && Visible(at(Lead(at, n, k).value), bt(Lead(at, n, k).value))
    requires forall m :: Visible(at(m), bt(m)) || SameShown(at(m), bt(m))
    ensures ChaseFrom(at, soa, n, chain, answer).answer != ChaseFrom(bt, soa, n, chain, answer).answer
    decreases k
  {
    hide Visible;
    if Visible(at(n), bt(n)) {
      VisibleDiffers(at, bt, soa, n, chain, answer);
    } else {
      assert SameShown(at(n), bt(n));
      PathDiffers(at, bt, soa, at(n).next, chain + 1, answer + at(n).recs, k - 1);
    }
  }

  /** Past the first link, outcomes that show the same give the same response. */
  lemma {:induction false} PathAgrees(
    at: Name -> Outcome, bt: Name -> Outcome, soa: Record, n: Name, chain: nat, answer: seq<Record>)
    requires chain <= MAX_CHAIN && (chain == 0 ==> at(n) == bt(n))
    requires forall k: nat :: chain + k < MAX_CHAIN && Lead(at, n, k).Some? ==> SameShown(at(Lead(at, n, k).value), bt(Lead(at, n, k).value))
    ensures ChaseFrom(at, soa, n, chain, answer) == ChaseFrom(bt, soa, n, chain, answer)
    decreases MAX_CHAIN - chain
  {
    if chain < MAX_CHAIN {
      assert Lead(at, n, 0) == Some(n);
      if at(n).Chase? {
        forall k: nat | chain + 1 + k < MAX_CHAIN && Lead(at, at(n).next, k).Some?
          ensures SameShown(at(Lead(at, at(n).next, k).value), bt(Lead(at, at(n).next, k).value))
        {
          assert Lead(at, n, k + 1) == Lead(at, at(n).next, k);
        }
        PathAgrees(at, bt, soa, at(n).next, chain + 1, answer + at(n).recs);
      }
    }
  }

  // ----- the first name -----

  /** A name some query without referral is led to, for records of type `t`. */
  ghost predicate Reached(z: Zone, t: uint16, m: Name) {
    exists q, k: nat :: ReachedFrom(z, t, q, k, m)
  }

  ghost predicate ReachedFrom(z: Zone, t: uint16, q: Name, k: nat, m: Name) {
    k < MAX_CHAIN && Delegation(z, q) == [] && Lead(Outcomes(z, t), q, k) == Some(m)
  }

  lemma ReachedAtOnce(z: Zone, t: uint16, q: Name)
    requires Delegation(z, q) == []
    ensures Reached(z, t, q)
  {
    assert ReachedFrom(z, t, q, 0, q);
  }

  /** No name that a query is led to shows. */
  ghost predicate NothingShows(z: Zone) {
    forall t, m :: Reached(z, t, m) ==> !Shows(z, m, t)
  }

  /** Below a hollow name that is not delegated nothing is. */
  lemma {:induction false} HollowUndelegated(z: Zone, n: Name, m: Name)
    requires ZoneOK(z) && Hollow(z, n) && Delegation(z, n) == [] && AtOrBelow(m, n)
    ensures Delegation(z, m) == []
  {
    hide ZoneOK, Filter, Plain;
    if m != n {
      HollowUndelegated(z, n, m.parent);
      if m in z.byName {
        PlainType(z.byName[m], TYPE_NS);
      }
      NoServers();
    }
  }

  lemma NoServers()
    ensures Filter([], OfType(TYPE_NS)) == []
  {
  }

  lemma HollowHoldsSoa(z: Zone, n: Name) returns (m: Name)
    requires ZoneOK(z) && Hollow(z, n)
    ensures AtOrBelow(m, n) && m != z.origin && Soas(Bucket(z, m)) != []
  {
    hide Filter, Plain, Soas, ApexOK;
    assert OnSomePath(z, n);
    m :| m in z.byName && AtOrBelow(m, n);
    assert BucketOK(z.origin, m, z.byName[m]);
    SomeKind(z.byName[m]);
  }

  /** If nothing shows, no hollow name is free of a delegation. */
  lemma HollowIsDelegated(z: Zone, n: Name)
    requires ZoneOK(z) && NothingShows(z) && Delegation(z, n) == []
    ensures !Hollow(z, n)
  {
    hide ZoneOK, Hollow, Soas, Bucket, Delegation;
    if Hollow(z, n) {
      var m := HollowHoldsSoa(z, n);
      HollowUndelegated(z, n, m);
      ReachedAtOnce(z, TYPE_SOA, m);
    }
  }

  lemma {:induction false} AboveUndelegated(z: Zone, q: Name, e: Name)
    requires Delegation(z, q) == [] && AtOrBelow(q, e) && AtOrBelow(e, z.origin)
    ensures Delegation(z, e) == []
  {
    if q != e {
      AtOrBelowDepth(q.parent, e);
      AtOrBelowDepth(e, z.origin);
      AboveUndelegated(z, q.parent, e);
    }
  }

  lemma EncloserInside(z: Zone, n: Name)
    requires ZoneOK(z) && Encloser(z, n).Some?
    ensures n.Sub? && AtOrBelow(n, Encloser(z, n).value) && AtOrBelow(Encloser(z, n).value, z.origin)
  {
    assert OnSomePath(z, Encloser(z, n).value);
  }

  /** The wildcard has the same records on both sides. */
  lemma FirstWildSame(z: Zone, q: Name)
    requires ZoneOK(z) && NothingShows(z) && Delegation(z, q) == [] && q !in z.namesExist && RedirectAbove(z, q, q).None?
    ensures ArrivingWild(z, q) == WildcardBucket(z, q)
  {
    hide ZoneOK, Hollow, Soas, Plain, Delegation, ArrivingWild, WildcardBucket, RedirectAbove, Encloser, Bucket;
    ReachedAtOnce(z, TYPE_SOA, q);
    assert !Shows(z, q, TYPE_SOA);
    if Encloser(z, q).None? {
      NoEncloser(z, q);
    } else {
      EncloserInside(z, q);
      AboveUndelegated(z, q, Encloser(z, q).value);
      HollowIsDelegated(z, Encloser(z, q).value);
      SameEncloser(z, q);
      PlainIsAll(WildcardBucket(z, q));
    }
  }

  lemma PlainIsAll(a: seq<Record>)
    requires Soas(a) == []
    ensures Plain(a) == a
  {
    hide Filter;
    FilterMember(a, OfType(TYPE_SOA));
    forall r | r in a
      ensures r.Type() != TYPE_SOA
    {
      assert r !in Soas(a);
    }
    FilterAll(a, NotOfType(TYPE_SOA));
  }

  lemma FirstNameSame(z: Zone, q: Name, t: uint16)
    requires ZoneOK(z) && NothingShows(z) && Delegation(z, q) == []
    ensures At(z, q, t) == At(Trimmed(z), q, t)
  {
    hide Trimmed, ZoneOK, At, Hollow, Soas, RedirectAbove, ArrivingWild, WildcardBucket, MatchOf, FromMatch;
    hide Bucket, Delegation, NothingShows, Arriving, RedirectChase;
    TrimmedOK(z);
    TrimmedExists(z, q);
    HollowNamed(z, q);
    HollowIsDelegated(z, q);
    if q in z.namesExist {
      UnshownSoas(z, q);
      ArrivingDecides(z, q, t);
    } else {
      TrimmedRedirect(z, q, q);
      TrimmedWild(z, q);
      UnnamedAt(z, q, t);
      UnnamedAt(Trimmed(z), q, t);
      if RedirectAbove(z, q, q).None? {
        FirstWildSame(z, q);
      }
    }
  }

  lemma UnshownSoas(z: Zone, q: Name)
    requires NothingShows(z) && Delegation(z, q) == []
    ensures q == z.origin || Soas(Bucket(z, q)) == []
  {
    hide Soas, Bucket, Delegation, ShowsThrough;
    ReachedAtOnce(z, TYPE_SOA, q);
    assert !Shows(z, q, TYPE_SOA);
  }

  // ----- whole lookups -----

  ghost predicate AnswersAlike(y: Zone, z: Zone) {
    forall q, t :: LookupOf(y, q, t) == LookupOf(z, q, t)
  }

  lemma UnshownAgrees(z: Zone, q: Name, t: uint16)
    requires ZoneOK(z) && NothingShows(z)
    ensures LookupOf(Trimmed(z), q, t) == LookupOf(z, q, t)
  {
    hide Trimmed, ZoneOK, At, Shows, Delegation, Glue, ChaseFrom, Bucket, SameShown, Visible, Lead;
    TrimmedDelegation(z, q);
    TrimmedOK(z);
    if Delegation(z, q) == [] {
      var at, bt := Outcomes(z, t), Outcomes(Trimmed(z), t);
      FirstNameSame(z, q, t);
      forall k: nat | 0 + k < MAX_CHAIN && Lead(at, q, k).Some?
        ensures SameShown(at(Lead(at, q, k).value), bt(Lead(at, q, k).value))
      {
        var m := Lead(at, q, k).value;
        assert ReachedFrom(z, t, q, k, m);
        StepDecides(z, m, t);
      }
      PathAgrees(at, bt, z.soaRec, q, 0, []);
    } else {
      TrimmedGlue(z, Delegation(z, q));
    }
  }

  lemma {:induction false} TrimmedGlue(z: Zone, ns: seq<Record>)
    ensures Glue(Trimmed(z), ns) == Glue(z, ns)
  {
    hide Bucket, Trimmed, Filter;
    if ns != [] {
      TrimmedGlue(z, ns[..|ns| - 1]);
      var s := ns[|ns| - 1];
      if s.rdata.NsData? {
        TrimmedBucket(z, s.rdata.target);
        PlainAddresses(Bucket(z, s.rdata.target));
      }
    }
  }

  lemma PlainAddresses(a: seq<Record>)
    ensures Filter(Plain(a), IsAddress()) == Filter(a, IsAddress())
  {
    hide Filter;
    FilterFilter(a, NotOfType(TYPE_SOA), IsAddress(), IsAddress());
  }

  lemma ShownDiffers(z: Zone, t: uint16, q: Name, k: nat, m: Name)
    requires ZoneOK(z) && ReachedFrom(z, t, q, k, m) && Shows(z, m, t)
    ensures LookupOf(Trimmed(z), q, t) != LookupOf(z, q, t)
  {
    hide Trimmed, ZoneOK, At, Shows, Delegation, Glue, ChaseFrom, Bucket, SameShown, Visible, Lead;
    TrimmedDelegation(z, q);
    TrimmedOK(z);
    var at, bt := Outcomes(z, t), Outcomes(Trimmed(z), t);
    forall x
      ensures Visible(at(x), bt(x)) || SameShown(at(x), bt(x))
    {
      StepDecides(z, x, t);
    }
    StepDecides(z, m, t);
    PathDiffers(at, bt, z.soaRec, q, 0, [], k);
  }

  lemma TrimmedAgreesExactly(z: Zone)
    requires ZoneOK(z)
    ensures AnswersAlike(Trimmed(z), z) <==> NothingShows(z)
  {
    hide Trimmed, ZoneOK, Shows, ReachedFrom, LookupOf;
    if NothingShows(z) {
      forall q, t
        ensures LookupOf(Trimmed(z), q, t) == LookupOf(z, q, t)
      {
        UnshownAgrees(z, q, t);
      }
    } else {
      var t, m :| Reached(z, t, m) && Shows(z, m, t);
      var q, k: nat :| ReachedFrom(z, t, q, k, m);
      ShownDiffers(z, t, q, k, m);
    }
  }

  /** Primary and secondary agree on every query if and only if no name that some query is led to
      shows a difference; in particular if no SOA lies below the apex. */
  lemma SecondaryAnswersAlike(z: Zone, all: seq<Record>)
    requires ZoneOK(z) && Lists(z, all) && z.soaRec.rdata.SoaData?
    ensures Load(FileOf(z, all)).Loaded?
    ensures AnswersAlike(Load(FileOf(z, all)).zone, z) <==> NothingShows(z)
    ensures SoaOnlyAtApex(z) ==> NothingShows(z)
    ensures NothingShows(z) ==> forall n :: n != z.origin && Delegation(z, n) == [] ==> Soas(Bucket(z, n)) == []
  {
    hide Load, Alike, Trimmed, ZoneOK, Lists, Bucket, Soas, Delegation, LookupOf, SoaOnlyAtApex, FileOf, NothingShows;
    LoadedAlike(z, all);
    var y := Load(FileOf(z, all)).zone;
    forall q, t
      ensures LookupOf(y, q, t) == LookupOf(Trimmed(z), q, t)
    {
      AlikeLookup(y, Trimmed(z), q, t);
    }
    TrimmedAgreesExactly(z);
    if SoaOnlyAtApex(z) {
      TrimmedSame(z);
    }
    if NothingShows(z) {
      forall n | n != z.origin && Delegation(z, n) == []
        ensures Soas(Bucket(z, n)) == []
      {
        UnshownSoas(z, n);
      }
    }
  }
}
