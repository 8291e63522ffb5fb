/** A secondary that loads what a transfer delivered answers every query like the primary without the
    SOA records below its apex. */
module Secondary {
  import opened Names
  import opened Records
  import opened Zones
  import opened ZoneRuns
  import opened Lookup
  import opened LookupLaws
  import opened TransferStream
  import Axfr

  // ----- buckets that differ in the place of the SOA -----

  function Plain(recs: seq<Record>): seq<Record> {
    Filter(recs, NotOfType(TYPE_SOA))
  }

  function Soas(recs: seq<Record>): seq<Record> {
    Filter(recs, OfType(TYPE_SOA))
  }

  /** The same SOA records, and the same others in the same order. */
  ghost predicate AlikeAt(a: seq<Record>, b: seq<Record>) {
    Plain(a) == Plain(b) && Soas(a) == Soas(b)
  }

  lemma AlikeType(a: seq<Record>, b: seq<Record>, t: uint16)
    requires AlikeAt(a, b)
    ensures Filter(a, OfType(t)) == Filter(b, OfType(t))
  {
    hide Filter;
    if t != TYPE_SOA {
      FilterFilter(a, NotOfType(TYPE_SOA), OfType(t), OfType(t));
      FilterFilter(b, NotOfType(TYPE_SOA), OfType(t), OfType(t));
    }
  }

  lemma AlikeAddresses(a: seq<Record>, b: seq<Record>)
    requires AlikeAt(a, b)
    ensures Filter(a, IsAddress()) == Filter(b, IsAddress())
  {
    hide Filter;
    FilterFilter(a, NotOfType(TYPE_SOA), IsAddress(), IsAddress());
    FilterFilter(b, NotOfType(TYPE_SOA), IsAddress(), IsAddress());
  }

  lemma AlikeEmpty(a: seq<Record>, b: seq<Record>)
    requires AlikeAt(a, b)
    ensures a == [] <==> b == []
  {
    SomeKind(a);
    SomeKind(b);
  }

  lemma SomeKind(a: seq<Record>)
    ensures a == [] <==> Plain(a) == [] && Soas(a) == []
  {
    hide Filter;
    FilterNothing();
    if a != [] {
      FilterMember(a, NotOfType(TYPE_SOA));
      FilterMember(a, OfType(TYPE_SOA));
      assert a[0] in a;
      assert a[0] in Plain(a) || a[0] in Soas(a);
    }
  }

  lemma FilterNothing()
    ensures Plain([]) == [] && Soas([]) == []
  {
  }

  lemma PlainCons(r: Record, rest: seq<Record>)
    ensures Plain([r] + rest) == (if r.Type() != TYPE_SOA then [r] else []) + Plain(rest)
  {
    FilterConcat([r], rest, NotOfType(TYPE_SOA));
    FilterSnoc([], r, NotOfType(TYPE_SOA));
    assert [] + [r] == [r];
  }

  lemma {:induction false} AliasesArePlain(a: seq<Record>)
    ensures FirstCname(a) == FirstCname(Plain(a)) && FirstDname(a) == FirstDname(Plain(a))
  {
    hide Plain;
    if a == [] {
      FilterNothing();
    } else {
      var rest := a[1..];
      assert a == [a[0]] + rest;
      PlainCons(a[0], rest);
      AliasesArePlain(rest);
      if a[0].Type() != TYPE_SOA {
        assert Plain(a)[0] == a[0] && Plain(a)[1..] == Plain(rest);
      } else {
        assert [] + Plain(rest) == Plain(rest);
      }
    }
  }

  lemma AlikeMatch(a: seq<Record>, b: seq<Record>, t: uint16)
    requires AlikeAt(a, b)
    ensures MatchOf(a, t) == MatchOf(b, t) && FirstDname(a) == FirstDname(b)
  {
    hide Filter, FirstCname, FirstDname;
    AlikeType(a, b, t);
    AliasesArePlain(a);
    AliasesArePlain(b);
  }

  // ----- zones that differ in the place of the SOA -----

  ghost predicate Alike(y: Zone, z: Zone) {
    && y.origin == z.origin && y.soaRec == z.soaRec && y.namesExist == z.namesExist
    && (forall n :: n in y.byName <==> n in z.byName)
    && forall n :: AlikeAt(Bucket(y, n), Bucket(z, n))
  }

  lemma {:induction false} AlikeDelegation(y: Zone, z: Zone, n: Name)
    requires Alike(y, z)
    ensures Delegation(y, n) == Delegation(z, n)
  {
    hide Bucket, AlikeAt, Filter;
    AlikeType(Bucket(y, n), Bucket(z, n), TYPE_NS);
    if n.Sub? {
      AlikeDelegation(y, z, n.parent);
    }
  }

  lemma {:induction false} AlikeGlue(y: Zone, z: Zone, ns: seq<Record>)
    requires Alike(y, z)
    ensures Glue(y, ns) == Glue(z, ns)
  {
    hide Bucket, AlikeAt, Filter;
    if ns != [] {
      AlikeGlue(y, z, ns[..|ns| - 1]);
      var s := ns[|ns| - 1];
      if s.rdata.NsData? {
        AlikeAddresses(Bucket(y, s.rdata.target), Bucket(z, s.rdata.target));
      }
    }
  }

  lemma {:induction false} AlikeRedirect(y: Zone, z: Zone, q: Name, cur: Name)
    requires Alike(y, z)
    ensures RedirectAbove(y, q, cur) == RedirectAbove(z, q, cur)
  {
    hide Bucket, AlikeAt, Substitute;
    if cur.Sub? {
      AlikeMatch(Bucket(y, cur.parent), Bucket(z, cur.parent), TYPE_DNAME);
      AlikeRedirect(y, z, q, cur.parent);
    }
  }

  lemma AlikeEncloser(y: Zone, z: Zone, n: Name)
    requires y.namesExist == z.namesExist
    ensures Encloser(y, n) == Encloser(z, n)
  {
    if n.Sub? {
      NearestAgrees(n.parent, m => m in y.namesExist, m => m in z.namesExist);
    }
  }

  lemma AlikeWildcard(y: Zone, z: Zone, n: Name)
    requires Alike(y, z)
    ensures AlikeAt(WildcardBucket(y, n), WildcardBucket(z, n))
  {
    hide Bucket, AlikeAt, Encloser, Representable;
    AlikeEncloser(y, z, n);
    AlikeSelf([]);
  }

  lemma AlikeSelf(a: seq<Record>)
    ensures AlikeAt(a, a)
  {
  }

  lemma BucketThere(z: Zone, n: Name)
    requires n in z.byName
    ensures Bucket(z, n) == z.byName[n]
  {
  }

  lemma AlikeOutcome(y: Zone, z: Zone, n: Name, t: uint16)
    requires Alike(y, z)
    ensures At(y, n, t) == At(z, n, t)
  {
    hide Bucket, AlikeAt, WildcardBucket, MatchOf, RedirectAbove, FromMatch;
    if n in z.byName {
      BucketThere(y, n);
      BucketThere(z, n);
      AlikeMatch(Bucket(y, n), Bucket(z, n), t);
    } else {
      AlikeRedirect(y, z, n, n);
      AlikeWildcard(y, z, n);
      AlikeEmpty(WildcardBucket(y, n), WildcardBucket(z, n));
      AlikeMatch(WildcardBucket(y, n), WildcardBucket(z, n), t);
    }
  }

  /** The place of the SOA in its bucket shows in no answer. */
  lemma AlikeLookup(y: Zone, z: Zone, q: Name, t: uint16)
    requires Alike(y, z)
    ensures LookupOf(y, q, t) == LookupOf(z, q, t)
  {
    hide Alike, At, Delegation, Glue, ChaseFrom;
    AlikeDelegation(y, z, q);
    AlikeGlue(y, z, Delegation(z, q));
    forall n
      ensures Outcomes(y, t)(n) == Outcomes(z, t)(n)
    {
      AlikeOutcome(y, z, n, t);
    }
    SameChase(Outcomes(y, t), Outcomes(z, t), z.soaRec, q, 0, []);
    AlikeSoa(y, z);
  }

  lemma AlikeSoa(y: Zone, z: Zone)
    requires Alike(y, z)
    ensures y.soaRec == z.soaRec
  {
  }

  // ----- what a secondary loads -----

  /** The transferred records without the closing SOA. */
  function FileOf(z: Zone, all: seq<Record>): ZoneFile {
    ZoneFile(z.origin, [z.soaRec] + Plain(all))
  }

  ghost predicate SoaOnlyAtApex(z: Zone) {
    forall n :: n != z.origin ==> Soas(Bucket(z, n)) == []
  }

  /** The zone without SOA records below its apex. */
  function Trimmed(z: Zone): Zone {
    Rebuilt(z.(byName := map n | n in z.byName && (n == z.origin || Plain(z.byName[n]) != [])
                           :: if n == z.origin then z.byName[n] else Plain(z.byName[n])))
  }

  lemma TrimmedBucket(z: Zone, n: Name)
    ensures Bucket(Trimmed(z), n) == if n == z.origin then Bucket(z, n) else Plain(Bucket(z, n))
  {
    hide Filter, PathUp;
    FilterNothing();
  }

  lemma TrimmedOK(z: Zone)
    requires ZoneOK(z)
    ensures ZoneOK(Trimmed(z)) && Trimmed(z).origin == z.origin && Trimmed(z).soaRec == z.soaRec
  {
    hide Filter, PathUp, NamesExact;
    var w := Trimmed(z);
    ApexSoaThere(z);
    forall n | n in w.byName
      ensures BucketOK(w.origin, n, w.byName[n])
    {
      assert BucketOK(z.origin, n, z.byName[n]);
      FilterMember(z.byName[n], NotOfType(TYPE_SOA));
    }
    RebuiltExact(w);
    assert Rebuilt(w) == w;
  }

  /** Without such records that is the zone itself. */
  lemma TrimmedSame(z: Zone)
    requires ZoneOK(z) && SoaOnlyAtApex(z)
    ensures Trimmed(z) == z
  {
    hide Filter, PathUp, Rebuilt, ZoneOK, SoaOnlyAtApex;
    TrimmedOK(z);
    var w := Trimmed(z);
    forall n
      ensures Bucket(w, n) == Bucket(z, n) && (n in w.byName <==> n in z.byName)
    {
      TrimmedBucket(z, n);
      AllPlain(z, n);
      KeyedIffHeld(w, n);
      KeyedIffHeld(z, n);
    }
    SameNames(w, z);
    assert w.byName == z.byName by {
      forall n | n in z.byName
        ensures w.byName[n] == z.byName[n]
      {
        BucketThere(w, n);
        BucketThere(z, n);
      }
    }
  }

  lemma AllPlain(z: Zone, n: Name)
    requires SoaOnlyAtApex(z)
    ensures n != z.origin ==> Plain(Bucket(z, n)) == Bucket(z, n)
  {
    hide Filter;
    var b := Bucket(z, n);
    FilterMember(b, OfType(TYPE_SOA));
    FilterAll(b, NotOfType(TYPE_SOA));
    if n != z.origin {
      forall r | r in b
        ensures r.Type() != TYPE_SOA
      {
        assert Soas(b) == [];
        assert r !in Soas(b);
      }
    }
  }

  lemma ApexSoaThere(z: Zone)
    requires ZoneOK(z)
    ensures z.soaRec in Bucket(z, z.origin) && z.soaRec.name == z.origin && z.soaRec.Type() == TYPE_SOA && z.origin in z.byName
  {
    FilterMember(Bucket(z, z.origin), OfType(TYPE_SOA));
    assert z.soaRec in [z.soaRec];
    assert BucketOK(z.origin, z.origin, z.byName[z.origin]);
  }

  /** What the secondary holds for one owner, before bucketing. */
  lemma FileBucket(z: Zone, all: seq<Record>, n: Name)
    requires ZoneOK(z) && Lists(z, all)
    ensures Filter(FileOf(z, all).records, OwnedBy(n)) == (if n == z.origin then [z.soaRec] else []) + Plain(Bucket(z, n))
  {
    hide Filter, ZoneOK;
    ApexSoaThere(z);
    FilterConcat([z.soaRec], Plain(all), OwnedBy(n));
    FilterSnoc([], z.soaRec, OwnedBy(n));
    NothingOwned(n);
    assert [] + [z.soaRec] == [z.soaRec];
    var both := (r: Record) => r.name == n && r.Type() != TYPE_SOA;
    FilterFilter(all, NotOfType(TYPE_SOA), OwnedBy(n), both);
    FilterFilter(all, OwnedBy(n), NotOfType(TYPE_SOA), both);
    assert OwnedAt(all, n) == Bucket(z, n);
  }

  lemma NothingOwned(n: Name)
    ensures Filter([], OwnedBy(n)) == []
  {
  }

  lemma PlainAgain(a: seq<Record>)
    ensures Plain(Plain(a)) == Plain(a) && Soas(Plain(a)) == []
  {
    hide Filter;
    FilterMember(a, NotOfType(TYPE_SOA));
    FilterFilter(a, NotOfType(TYPE_SOA), NotOfType(TYPE_SOA), NotOfType(TYPE_SOA));
    FilterNone(Plain(a), OfType(TYPE_SOA));
  }

  lemma SoaFirst(soa: Record, a: seq<Record>)
    requires soa.Type() == TYPE_SOA
    ensures Plain([soa] + Plain(a)) == Plain(a) && Soas([soa] + Plain(a)) == [soa]
  {
    hide Filter, Plain;
    PlainCons(soa, Plain(a));
    PlainAgain(a);
    assert [] + Plain(a) == Plain(a);
    SoasCons(soa, Plain(a));
    assert [soa] + [] == [soa];
  }

  lemma SoasCons(r: Record, rest: seq<Record>)
    ensures Soas([r] + rest) == (if r.Type() == TYPE_SOA then [r] else []) + Soas(rest)
  {
    FilterConcat([r], rest, OfType(TYPE_SOA));
    FilterSnoc([], r, OfType(TYPE_SOA));
    assert [] + [r] == [r];
  }

  lemma FileBucketAlike(z: Zone, all: seq<Record>, n: Name)
    requires ZoneOK(z) && Lists(z, all)
    ensures AlikeAt(Filter(FileOf(z, all).records, OwnedBy(n)), Bucket(Trimmed(z), n))
  {
    hide Filter, Plain, Lists, Bucket, FileOf, Trimmed;
    FileBucket(z, all, n);
    TrimmedBucket(z, n);
    ApexSoaThere(z);
    if n == z.origin {
      SoaFirst(z.soaRec, Bucket(z, n));
      ApexSoas(z);
    } else {
      assert [] + Plain(Bucket(z, n)) == Plain(Bucket(z, n));
    }
  }

  lemma ApexSoas(z: Zone)
    requires ZoneOK(z)
    ensures Soas(Bucket(z, z.origin)) == [z.soaRec]
  {
  }

  lemma FileInZone(z: Zone, all: seq<Record>)
    requires ZoneOK(z) && Lists(z, all)
    ensures forall r :: r in all ==> r in Bucket(z, r.name) && AtOrBelow(r.name, z.origin)
  {
    forall r | r in all
      ensures r in Bucket(z, r.name) && AtOrBelow(r.name, z.origin)
    {
      FilterMember(all, OwnedBy(r.name));
      assert OwnedAt(all, r.name) == Bucket(z, r.name);
      assert BucketOK(z.origin, r.name, z.byName[r.name]);
    }
  }

  lemma FileLoads(z: Zone, all: seq<Record>)
    requires ZoneOK(z) && Lists(z, all) && z.soaRec.rdata.SoaData?
    ensures var f := FileOf(z, all);
            FirstSoa(f.records) == Some(z.soaRec) && AllInZone(f.origin, f.records) && forall r :: r in f.records ==> !ApexAlias(f.origin, r)
  {
    hide Filter, Lists;
    FileInZone(z, all);
    ApexSoaThere(z);
    FilterMember(all, NotOfType(TYPE_SOA));
    var f := FileOf(z, all);
    assert f.records[0] == z.soaRec;
    forall r | r in f.records
      ensures AtOrBelow(r.name, f.origin) && !ApexAlias(f.origin, r)
    {
      assert r == z.soaRec || r in all;
    }
  }

  lemma FileLoadable(z: Zone, all: seq<Record>)
    requires ZoneOK(z) && Lists(z, all) && z.soaRec.rdata.SoaData?
    ensures Load(FileOf(z, all)).Loaded? && Loadable(FileOf(z, all)) && Load(FileOf(z, all)).zone.soaRec == z.soaRec
    ensures Load(FileOf(z, all)).zone.origin == z.origin
  {
    hide Filter, Plain, Lists, Bucket, ZoneOK, FirstSoa, AllInZone, ApexAlias;
    FileLoads(z, all);
    FileBucket(z, all, z.origin);
    ApexSoaThere(z);
    SoaFirst(z.soaRec, Bucket(z, z.origin));
  }

  lemma KeyedIffHeld(z: Zone, n: Name)
    requires ZoneOK(z)
    ensures n in z.byName <==> Bucket(z, n) != []
  {
    if n in z.byName {
      assert BucketOK(z.origin, n, z.byName[n]);
    }
  }

  lemma SameNames(y: Zone, z: Zone)
    requires ZoneOK(y) && ZoneOK(z) && y.origin == z.origin && forall n :: n in y.byName <==> n in z.byName
    ensures y.namesExist == z.namesExist
  {
    hide WellKeyed, ApexOK, AtOrBelow;
    forall m
      ensures m in y.namesExist <==> m in z.namesExist
    {
      assert OnSomePath(y, m) <==> OnSomePath(z, m);
    }
  }

  /** Loading a complete transfer gives a well-formed zone that differs from the primary's, SOA
      records below the apex aside, at most in the place of its SOA. */
  lemma LoadedAlike(z: Zone, all: seq<Record>)
    requires ZoneOK(z) && Lists(z, all) && z.soaRec.rdata.SoaData?
    ensures Load(FileOf(z, all)).Loaded? && ZoneOK(Load(FileOf(z, all)).zone) && Alike(Load(FileOf(z, all)).zone, Trimmed(z))
  {
    hide ZoneOK, Lists, Bucket, FileOf, Loadable, Load, AlikeAt, Filter, Trimmed;
    FileLoadable(z, all);
    TrimmedOK(z);
    var y, w := Load(FileOf(z, all)).zone, Trimmed(z);
    LoadEstablishesZoneOK(FileOf(z, all));
    forall n
      ensures AlikeAt(Bucket(y, n), Bucket(w, n)) && (n in y.byName <==> n in w.byName)
    {
      IndexedBucket(FileOf(z, all), n);
      FileBucketAlike(z, all, n);
      AlikeEmpty(Bucket(y, n), Bucket(w, n));
      KeyedIffHeld(y, n);
      KeyedIffHeld(w, n);
    }
    SameNames(y, w);
  }

  /** A record set arrives exactly unless it is an SOA set below the apex. */
  lemma SetArrives(z: Zone, all: seq<Record>, n: Name, t: uint16)
    requires ZoneOK(z) && Lists(z, all) && z.soaRec.rdata.SoaData?
    ensures Load(FileOf(z, all)).Loaded?
    ensures Filter(Bucket(Load(FileOf(z, all)).zone, n), OfType(t)) == Filter(Bucket(z, n), OfType(t))
            <==> t != TYPE_SOA || n == z.origin || Soas(Bucket(z, n)) == []
  {
    hide ZoneOK, Lists, Bucket, FileOf, Loadable, Load, Filter, Plain;
    FileLoadable(z, all);
    IndexedBucket(FileOf(z, all), n);
    FileBucket(z, all, n);
    var got := Bucket(Load(FileOf(z, all)).zone, n);
    if n == z.origin {
      ApexSoaThere(z);
      SoaFirst(z.soaRec, Bucket(z, n));
      ApexSoas(z);
      AlikeType(got, Bucket(z, n), t);
    } else {
      assert [] + Plain(Bucket(z, n)) == Plain(Bucket(z, n));
      PlainAgain(Bucket(z, n));
      if t != TYPE_SOA {
        PlainType(got, t);
        PlainType(Bucket(z, n), t);
      }
    }
  }

  lemma PlainType(a: seq<Record>, t: uint16)
    requires t != TYPE_SOA
    ensures Filter(Plain(a), OfType(t)) == Filter(a, OfType(t))
  {
    hide Filter;
    FilterFilter(a, NotOfType(TYPE_SOA), OfType(t), OfType(t));
  }

  /** Export, chunk, send, receive, load: the secondary answers every query as the primary without
      SOA records below its apex would. */
  lemma SecondaryAnswers(
    req: Request, z: Zone, all: seq<Record>, msgs: seq<seq<Record>>, q: Name, t: uint16)
    requires ZoneOK(z) && Lists(z, all) && z.soaRec.rdata.SoaData?
    requires Flatten(msgs) == Axfr.Transferred(z.soaRec, all)
    ensures var start := Axfr.Open(Items(req, Axfr.Envelopes(req, msgs)));
            && start.Ready? && Axfr.Drain(start.iter).0 != []
            && var got := Axfr.Drain(start.iter).0;
            && ZoneFile(z.origin, got[..|got| - 1]) == FileOf(z, all)
            && var loaded := Load(FileOf(z, all));
            loaded.Loaded? && LookupOf(loaded.zone, q, t) == LookupOf(Trimmed(z), q, t)
  {
    hide ZoneOK, Lists, Load, LookupOf, Alike, Items, Flatten, Trimmed;
    Axfr.ServerClientRoundTrip(req, z.soaRec, all, msgs);
    var got := Axfr.Transferred(z.soaRec, all);
    assert got[..|got| - 1] == FileOf(z, all).records;
    LoadedAlike(z, all);
    AlikeLookup(Load(FileOf(z, all)).zone, Trimmed(z), q, t);
  }

  // ----- SOA records that are missed -----

  /** Dropping SOA records moves no cut. */
  lemma {:induction false} TrimmedDelegation(z: Zone, n: Name)
    ensures Delegation(Trimmed(z), n) == Delegation(z, n)
  {
    hide Bucket, Trimmed, Filter;
    TrimmedBucket(z, n);
    PlainType(Bucket(z, n), TYPE_NS);
    TrimmedOrigin(z);
    if n.Sub? {
      TrimmedDelegation(z, n.parent);
    }
  }

  lemma TrimmedOrigin(z: Zone)
    ensures Trimmed(z).origin == z.origin
  {
  }

  lemma {:induction false} ChaseExtends(at: Name -> Outcome, soa: Record, n: Name, chain: nat, answer: seq<Record>)
    requires 0 < chain <= MAX_CHAIN
    ensures answer <= ChaseFrom(at, soa, n, chain, answer).answer
    decreases MAX_CHAIN - chain
  {
    if chain < MAX_CHAIN && at(n).Chase? {
      ChaseExtends(at, soa, at(n).next, chain + 1, answer + at(n).recs);
    }
  }

  ghost predicate StartsPlain(out: Outcome) {
    !out.Answer? && (out.Chase? ==> out.recs != [] && out.recs[0].Type() != TYPE_SOA)
  }

  /** A bucket without SOA gives no SOA. */
  lemma PlainMatch(recs: seq<Record>, n: Name, rewrite: bool)
    requires Soas(recs) == []
    ensures StartsPlain(FromMatch(MatchOf(recs, TYPE_SOA), n, rewrite))
  {
    hide Filter;
  }

  lemma BelowApex(z: Zone, n: Name)
    requires ZoneOK(z)
    ensures n in z.namesExist ==> Wildcard(n) != z.origin
  {
    if n in z.namesExist {
      AtOrBelowDepth(n, z.origin);
    }
  }

  lemma {:induction false} RedirectIsDname(z: Zone, q: Name, cur: Name)
    ensures RedirectAbove(z, q, cur).Some? ==> RedirectAbove(z, q, cur).value.dname.rdata.DnameData?
  {
    hide FirstDname, Substitute;
    if cur.Sub? {
      RedirectIsDname(z, q, cur.parent);
    }
  }

  lemma PlainOutcome(z: Zone, n: Name)
    requires ZoneOK(z) && n != z.origin && forall m :: m != z.origin ==> Soas(Bucket(z, m)) == []
    ensures StartsPlain(At(z, n, TYPE_SOA))
  {
    hide Filter, Soas, MatchOf, FromMatch, RedirectAbove, ZoneOK, Representable;
    if n in z.byName {
      BucketThere(z, n);
      PlainMatch(Bucket(z, n), n, false);
    } else {
      FilterNothing();
      RedirectIsDname(z, n, n);
      if Encloser(z, n).Some? {
        BelowApex(z, Encloser(z, n).value);
      }
      PlainMatch(WildcardBucket(z, n), n, true);
    }
  }

  /** An SOA set below the apex that no cut hides is answered by the primary and not by the
      secondary. */
  lemma VisibleSoaLost(z: Zone, all: seq<Record>, n: Name)
    requires ZoneOK(z) && Lists(z, all) && z.soaRec.rdata.SoaData?
    requires n != z.origin && Soas(Bucket(z, n)) != [] && Delegation(z, n) == []
    ensures Load(FileOf(z, all)).Loaded?
    ensures LookupOf(Load(FileOf(z, all)).zone, n, TYPE_SOA) != LookupOf(z, n, TYPE_SOA)
  {
    hide Load, Alike, Trimmed, At, ZoneOK, Lists, Bucket, Filter, Soas, Delegation;
    LoadedAlike(z, all);
    var w := Trimmed(z);
    AlikeLookup(Load(FileOf(z, all)).zone, w, n, TYPE_SOA);
    TrimmedOK(z);
    TrimmedDelegation(z, n);
    TrimmedPlain(z);
    TrimmedOrigin(z);
    PlainOutcome(w, n);
    SoaAnswered(z, n);
    NotPlainFirst(z, n);
    AnswerFirst(Outcomes(z, TYPE_SOA), z.soaRec, n);
    PlainFirst(Outcomes(w, TYPE_SOA), w.soaRec, n);
  }

  lemma AnswerFirst(at: Name -> Outcome, soa: Record, n: Name)
    requires at(n).Answer? && at(n).recs != []
    ensures ChaseFrom(at, soa, n, 0, []).answer == at(n).recs
  {
    assert [] + at(n).recs == at(n).recs;
  }

  lemma PlainFirst(at: Name -> Outcome, soa: Record, n: Name)
    requires StartsPlain(at(n))
    ensures var a := ChaseFrom(at, soa, n, 0, []).answer; a == [] || a[0].Type() != TYPE_SOA
  {
    if at(n).Chase? {
      assert [] + at(n).recs == at(n).recs;
      ChaseExtends(at, soa, at(n).next, 1, at(n).recs);
    }
  }

  lemma TrimmedPlain(z: Zone)
    ensures forall m :: m != z.origin ==> Soas(Bucket(Trimmed(z), m)) == []
  {
    hide Trimmed, Bucket, Soas, Plain;
    forall m | m != z.origin
      ensures Soas(Bucket(Trimmed(z), m)) == []
    {
      TrimmedBucket(z, m);
      PlainAgain(Bucket(z, m));
    }
  }

  lemma SoaAnswered(z: Zone, n: Name)
    requires ZoneOK(z) && Soas(Bucket(z, n)) != []
    ensures At(z, n, TYPE_SOA) == Answer(Soas(Bucket(z, n)))
  {
    hide Filter;
    FilterNothing();
  }

  lemma NotPlainFirst(z: Zone, n: Name)
    requires Soas(Bucket(z, n)) != []
    ensures Soas(Bucket(z, n))[0].Type() == TYPE_SOA
  {
    hide Filter, Bucket;
    FilterMember(Bucket(z, n), OfType(TYPE_SOA));
    assert Soas(Bucket(z, n))[0] in Soas(Bucket(z, n));
  }

  // ----- a zone that is not transferred whole -----

  const STRAY: Zone := Zone(Root, APEX_SOA, map[Root := [APEX_SOA], CHILD_SOA.name := [CHILD_SOA]], {Root, CHILD_SOA.name})

  lemma StrayOK()
    ensures ZoneOK(STRAY)
  {
    hide Filter;
    var child := CHILD_SOA.name;
    FilterSnoc([], APEX_SOA, OfType(TYPE_SOA));
    FilterNothing();
    assert [] + [APEX_SOA] == [APEX_SOA];
    AtOrBelowRoot(child);
    forall m
      ensures m in STRAY.namesExist <==> OnSomePath(STRAY, m)
    {
      AtOrBelowRoot(m);
      assert Root in STRAY.byName && child in STRAY.byName;
      assert AtOrBelow(child, m) <==> m == child || m == Root;
      assert AtOrBelow(Root, m) <==> m == Root;
    }
  }

  lemma StrayLists()
    ensures Lists(STRAY, [APEX_SOA, CHILD_SOA])
  {
    hide Filter;
    assert [APEX_SOA] + [CHILD_SOA] == [APEX_SOA, CHILD_SOA] && [] + [APEX_SOA] == [APEX_SOA] && [] + [CHILD_SOA] == [CHILD_SOA];
    forall n
      ensures OwnedAt([APEX_SOA, CHILD_SOA], n) == Bucket(STRAY, n)
    {
      NothingOwned(n);
      FilterSnoc([APEX_SOA], CHILD_SOA, OwnedBy(n));
      FilterSnoc([], APEX_SOA, OwnedBy(n));
      assert [APEX_SOA] + [] == [APEX_SOA];
      assert OwnedAt([APEX_SOA, CHILD_SOA], n) == if n == Root then [APEX_SOA] else if n == CHILD_SOA.name then [CHILD_SOA] else [];
    }
  }

  lemma StrayVisible()
    ensures Soas(Bucket(STRAY, CHILD_SOA.name)) == [CHILD_SOA] && Delegation(STRAY, CHILD_SOA.name) == []
  {
    FilterSnoc([], CHILD_SOA, OfType(TYPE_SOA));
    FilterSnoc([], CHILD_SOA, OfType(TYPE_NS));
    assert [] + [CHILD_SOA] == [CHILD_SOA];
    assert Filter([CHILD_SOA], OfType(TYPE_NS)) == [];
    assert Bucket(STRAY, CHILD_SOA.name) == [CHILD_SOA];
    assert Delegation(STRAY, Root) == [];
    assert Delegation(STRAY, CHILD_SOA.name) == Delegation(STRAY, Root);
  }

  /** The primary answers for the SOA below its apex, and a secondary loaded from it does not. */
  lemma StraySoaLost()
    ensures ZoneOK(STRAY) && Lists(STRAY, [APEX_SOA, CHILD_SOA]) && Load(FileOf(STRAY, [APEX_SOA, CHILD_SOA])).Loaded?
    ensures LookupOf(Load(FileOf(STRAY, [APEX_SOA, CHILD_SOA])).zone, CHILD_SOA.name, TYPE_SOA)
            != LookupOf(STRAY, CHILD_SOA.name, TYPE_SOA)
  {
    hide Load, LookupOf, ZoneOK, Lists, Bucket, Soas, Delegation, FileOf;
    StrayOK();
    StrayLists();
    StrayVisible();
    VisibleSoaLost(STRAY, [APEX_SOA, CHILD_SOA], CHILD_SOA.name);
  }
}
