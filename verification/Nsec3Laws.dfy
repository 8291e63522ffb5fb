/** Negative answers assembled from the NSEC3 index are true of the zone, whatever was inserted,
    swept and evicted before, as long as every inserted entry was. */
module Nsec3Laws {
  import opened Names
  import opened Records
  import opened WireDecode
  import opened Nsec3
  import opened Nsec3Index

  /** The zones as they are: which names a zone holds, and with which types. */
  datatype World = World(holds: (Name, Name) -> bool, types: (Name, Name) -> set<uint16>)

  /** A zone without delegations: its names lie below the apex, and an existing name's ancestors
      up to the apex exist too. */
  ghost predicate ZoneShape(w: World, apex: Name) {
    forall n :: w.holds(apex, n) ==> AtOrBelow(n, apex) && (n != apex ==> n.Sub? && w.holds(apex, n.parent))
  }

  /** No other name has the hash of an existing one. */
  ghost predicate CollisionFree(w: World, sha1: Bytes -> Hash, apex: Name, p: Params) {
    forall n, m :: w.holds(apex, n) && HashOf(sha1, n, p).Some? && HashOf(sha1, m, p) == HashOf(sha1, n, p) ==> n == m
  }

  /** An NSEC3 record tells the truth: its owner hash belongs to an existing name with exactly those
      types, and unless it opts out, no existing name hashes into its interval. */
  ghost predicate OwnerTrue(w: World, sha1: Bytes -> Hash, apex: Name, p: Params, e: Entry) {
    exists n :: w.holds(apex, n) && HashOf(sha1, n, p) == Some(e.ownerHash) && forall t :: t in e.types <==> t in w.types(apex, n)
  }

  ghost predicate IntervalTrue(w: World, sha1: Bytes -> Hash, apex: Name, p: Params, e: Entry) {
    !e.optOut ==> forall n :: w.holds(apex, n) && HashOf(sha1, n, p).Some?
                    ==> !IntervalContains(e.ownerHash, e.nextHash, HashOf(sha1, n, p).value)
  }

  ghost predicate EntryTrue(w: World, sha1: Bytes -> Hash, apex: Name, p: Params, e: Entry) {
    OwnerTrue(w, sha1, apex, p, e) && IntervalTrue(w, sha1, apex, p, e)
  }

  ghost predicate BucketTrue(w: World, sha1: Bytes -> Hash, apex: Name, z: ZoneEntries) {
    forall e :: e in z.entries ==> EntryTrue(w, sha1, apex, z.params, e)
  }

  ghost predicate IndexTrue(w: World, sha1: Bytes -> Hash, zones: ZoneTable) {
    forall k :: k in zones ==> BucketTrue(w, sha1, k, zones[k])
  }

  // ----- what match and cover prove -----

  lemma MatchProves(w: World, sha1: Bytes -> Hash, apex: Name, z: ZoneEntries, n: Name, now: int)
    requires CollisionFree(w, sha1, apex, z.params) && BucketTrue(w, sha1, apex, z)
    requires MatchOf(sha1, z, n, now).Some?
    ensures w.holds(apex, n) && forall t :: t in MatchOf(sha1, z, n, now).value.types <==> t in w.types(apex, n)
  {
    hide HashOf, Position, IntervalTrue;
    var e := MatchOf(sha1, z, n, now).value;
    assert EntryTrue(w, sha1, apex, z.params, e);
    var m :| w.holds(apex, m) && HashOf(sha1, m, z.params) == Some(e.ownerHash)
             && forall t :: t in e.types <==> t in w.types(apex, m);
    assert m == n;
  }

  lemma CoverProves(w: World, sha1: Bytes -> Hash, apex: Name, z: ZoneEntries, n: Name, now: int)
    requires BucketTrue(w, sha1, apex, z) && CoverOf(sha1, z, n, now, true).Some?
    ensures !w.holds(apex, n)
  {
    hide HashOf, IntervalContains, OwnerTrue;
    assert EntryTrue(w, sha1, apex, z.params, CoverOf(sha1, z, n, now, true).value);
  }

  // ----- names between the encloser and the query -----

  lemma {:induction false} LongerIsOnPath(q: Name, encloser: Name)
    requires AtOrBelow(q, encloser)
    ensures q == encloser ==> OneLabelLonger(q, Depth(encloser)) == None
    ensures q != encloser ==>
              && OneLabelLonger(q, Depth(encloser)).Some?
              && OneLabelLonger(q, Depth(encloser)).value.Sub?
              && OneLabelLonger(q, Depth(encloser)).value.parent == encloser
              && AtOrBelow(q, OneLabelLonger(q, Depth(encloser)).value)
  {
    if q != encloser {
      AtOrBelowDepth(q.parent, encloser);
      if Depth(q) > Depth(encloser) + 1 {
        LongerIsOnPath(q.parent, encloser);
      }
    }
  }

  /** An existing name drags every name between it and the apex into existence. */
  lemma {:induction false} AncestorsExist(w: World, apex: Name, n: Name, anc: Name)
    requires ZoneShape(w, apex) && w.holds(apex, n) && AtOrBelow(n, anc) && AtOrBelow(anc, apex)
    ensures w.holds(apex, anc)
  {
    if n != anc {
      if n == apex {
        AtOrBelowDepth(n, anc);
        AtOrBelowDepth(anc, apex);
      } else {
        AncestorsExist(w, apex, n.parent, anc);
      }
    }
  }

  /** `encloser` is the longest existing ancestor-or-self of `q`. */
  ghost predicate ClosestEncloser(w: World, apex: Name, q: Name, encloser: Name) {
    && AtOrBelow(q, encloser) && w.holds(apex, encloser)
    && forall n :: AtOrBelow(q, n) && w.holds(apex, n) ==> AtOrBelow(encloser, n)
  }

  lemma GapProves(w: World, apex: Name, q: Name, encloser: Name, next: Name)
    requires ZoneShape(w, apex) && w.holds(apex, encloser) && !w.holds(apex, next)
    requires AtOrBelow(q, next) && next.Sub? && next.parent == encloser && AtOrBelow(q, encloser)
    ensures ClosestEncloser(w, apex, q, encloser)
  {
    forall n | AtOrBelow(q, n) && w.holds(apex, n)
      ensures AtOrBelow(encloser, n)
    {
      if Depth(n) <= Depth(encloser) {
        AncestorsNested(q, n, encloser);
      } else {
        AncestorsNested(q, next, n);
        AtOrBelowTransitive(next, encloser, apex);
        AncestorsExist(w, apex, n, next);
        assert false;
      }
    }
  }

  // ----- the verdicts -----

  /** The hash of `n` lies in the interval of an entry that does not opt out. */
  ghost predicate CoversName(sha1: Bytes -> Hash, p: Params, e: Entry, n: Name) {
    !e.optOut && HashOf(sha1, n, p).Some? && IntervalContains(e.ownerHash, e.nextHash, HashOf(sha1, n, p).value)
  }

  /** The proof is about `encloser`: its first entry is that name's own, which is the real closest
      encloser of `q`; the others cover the next closer name and the wildcard, and neither exists. */
  ghost predicate ProvesAt(w: World, sha1: Bytes -> Hash, p: Params, apex: Name, q: Name, proof: Proof, encloser: Name) {
    && ClosestEncloser(w, apex, q, encloser) && HashOf(sha1, encloser, p) == Some(proof.matched.ownerHash)
    && !w.holds(apex, Wildcard(encloser)) && CoversName(sha1, p, proof.wildcard, Wildcard(encloser))
    && OneLabelLonger(q, Depth(encloser)).Some?
    && !w.holds(apex, OneLabelLonger(q, Depth(encloser)).value)
    && CoversName(sha1, p, proof.nextCloser, OneLabelLonger(q, Depth(encloser)).value)
  }

  ghost predicate NameAbsent(w: World, sha1: Bytes -> Hash, p: Params, apex: Name, q: Name, proof: Proof) {
    !w.holds(apex, q) && exists encloser :: ProvesAt(w, sha1, p, apex, q, proof, encloser)
  }

  lemma CoverCovers(sha1: Bytes -> Hash, z: ZoneEntries, n: Name, now: int)
    requires CoverOf(sha1, z, n, now, true).Some?
    ensures CoversName(sha1, z.params, CoverOf(sha1, z, n, now, true).value, n)
  {
    hide HashOf, IntervalContains;
  }

  lemma EncloserProofProves(w: World, sha1: Bytes -> Hash, apex: Name, z: ZoneEntries, q: Name, cur: Name, m: Entry, now: int)
    requires ZoneShape(w, apex) && CollisionFree(w, sha1, apex, z.params) && BucketTrue(w, sha1, apex, z)
    requires AtOrBelow(q, cur) && MatchOf(sha1, z, cur, now) == Some(m)
    requires EncloserProof(sha1, z, q, cur, m, now).Some?
    ensures NameAbsent(w, sha1, z.params, apex, q, EncloserProof(sha1, z, q, cur, m, now).value)
  {
    hide MatchOf, CoverOf, OneLabelLonger, ZoneShape, CollisionFree, BucketTrue, CoversName, HashOf;
    LongerIsOnPath(q, cur);
    var next := OneLabelLonger(q, Depth(cur)).value;
    MatchProves(w, sha1, apex, z, cur, now);
    CoverProves(w, sha1, apex, z, next, now);
    CoverCovers(sha1, z, next, now);
    CoverProves(w, sha1, apex, z, Wildcard(cur), now);
    CoverCovers(sha1, z, Wildcard(cur), now);
    GapProves(w, apex, q, cur, next);
    assert ProvesAt(w, sha1, z.params, apex, q, EncloserProof(sha1, z, q, cur, m, now).value, cur);
    if w.holds(apex, q) {
      AtOrBelowDepth(q, cur);
      AtOrBelowDepth(cur, q);
    }
  }

  lemma {:induction false} ProofFromProves(w: World, sha1: Bytes -> Hash, apex: Name, z: ZoneEntries, q: Name, cur: Name, now: int)
    requires ZoneShape(w, apex) && CollisionFree(w, sha1, apex, z.params) && BucketTrue(w, sha1, apex, z)
    requires AtOrBelow(q, cur) && ProofFrom(sha1, z, q, cur, now).Some?
    ensures NameAbsent(w, sha1, z.params, apex, q, ProofFrom(sha1, z, q, cur, now).value)
    decreases cur
  {
    hide MatchOf, ZoneShape, CollisionFree, BucketTrue, NameAbsent, EncloserProof;
    match MatchOf(sha1, z, cur, now)
    case Some(m) => EncloserProofProves(w, sha1, apex, z, q, cur, m, now);
    case None =>
      AtOrBelowTransitive(q, cur, cur.parent);
      ProofFromProves(w, sha1, apex, z, q, cur.parent, now);
  }

  /** A verdict is a fact about the zone, and its entries are about the names it speaks of. */
  ghost predicate VerdictTrue(w: World, sha1: Bytes -> Hash, p: Params, apex: Name, q: Name, qtype: uint16, v: Verdict) {
    match v
    case NoProof => true
    case NoData(e) =>
      && w.holds(apex, q) && HashOf(sha1, q, p) == Some(e.ownerHash)
      && qtype !in w.types(apex, q) && TYPE_CNAME !in w.types(apex, q)
    case NameError(proof) => NameAbsent(w, sha1, p, apex, q, proof)
  }

  ghost predicate TableVerdictTrue(
    w: World, sha1: Bytes -> Hash, zones: ZoneTable, apex: Name, q: Name, qtype: uint16, v: Verdict)
  {
    if apex in zones then VerdictTrue(w, sha1, zones[apex].params, apex, q, qtype, v) else v == NoProof
  }

  /** Nothing is assumed about the order of the entries. */
  lemma LookupSound(w: World, sha1: Bytes -> Hash, zones: ZoneTable, apex: Name, q: Name, qtype: uint16, now: int)
    requires ZoneShape(w, apex) && (apex in zones ==> CollisionFree(w, sha1, apex, zones[apex].params)) && IndexTrue(w, sha1, zones)
    ensures TableVerdictTrue(w, sha1, zones, apex, q, qtype, VerdictOf(sha1, zones, apex, q, qtype, now))
  {
    hide MatchOf, ProofFrom, ZoneShape, CollisionFree, BucketTrue, NameAbsent, HashOf;
    if apex in zones {
      var z := zones[apex];
      if MatchOf(sha1, z, q, now).Some? {
        MatchProves(w, sha1, apex, z, q, now);
      }
      if ProofFrom(sha1, z, q, q, now).Some? {
        ProofFromProves(w, sha1, apex, z, q, q, now);
      }
    }
  }

  // ----- exactly when a proof is found -----

  ghost predicate LiveMatch(sha1: Bytes -> Hash, z: ZoneEntries, n: Name, now: int) {
    exists e :: e in z.entries && e.expiresAt > now && HashOf(sha1, n, z.params) == Some(e.ownerHash)
  }

  ghost predicate LiveCover(sha1: Bytes -> Hash, z: ZoneEntries, n: Name, now: int) {
    HashOf(sha1, n, z.params).Some? &&
    exists e :: e in z.entries && e.expiresAt > now && !e.optOut
                && IntervalContains(e.ownerHash, e.nextHash, HashOf(sha1, n, z.params).value)
  }

  /** `encloser` is the first name on the way up from `cur` with a live entry of its own. */
  ghost predicate FirstMatch(sha1: Bytes -> Hash, z: ZoneEntries, cur: Name, encloser: Name, now: int) {
    && AtOrBelow(cur, encloser) && LiveMatch(sha1, z, encloser, now)
    && forall n :: AtOrBelow(cur, n) && n != encloser && AtOrBelow(n, encloser) ==> !LiveMatch(sha1, z, n, now)
  }

  ghost predicate CoversBelow(sha1: Bytes -> Hash, z: ZoneEntries, q: Name, encloser: Name, now: int) {
    && OneLabelLonger(q, Depth(encloser)).Some?
    && LiveCover(sha1, z, OneLabelLonger(q, Depth(encloser)).value, now)
    && WildcardAt(encloser).Some? && LiveCover(sha1, z, WildcardAt(encloser).value, now)
  }

  lemma MatchExactly(sha1: Bytes -> Hash, z: ZoneEntries, n: Name, now: int)
    requires Sorted(z.entries)
    ensures MatchOf(sha1, z, n, now).Some? <==> LiveMatch(sha1, z, n, now)
  {
    hide HashOf, Position, BytesLess;
    if HashOf(sha1, n, z.params).Some? {
      var h := HashOf(sha1, n, z.params).value;
      SearchFinds(z.entries, h);
      if LiveMatch(sha1, z, n, now) {
        var e :| e in z.entries && e.expiresAt > now && e.ownerHash == h;
        assert FoundAt(z.entries, h, Position(z.entries, h));
        SortedUnique(z.entries, z.entries[Position(z.entries, h)], e);
      }
    }
  }

  lemma SortedUnique(entries: seq<Entry>, a: Entry, b: Entry)
    requires Sorted(entries) && a in entries && b in entries && a.ownerHash == b.ownerHash
    ensures a == b
  {
    hide BytesLess;
    var i :| 0 <= i < |entries| && entries[i] == a;
    var j :| 0 <= j < |entries| && entries[j] == b;
    LessTotal(a.ownerHash, a.ownerHash);
  }

  lemma CoverExactly(sha1: Bytes -> Hash, z: ZoneEntries, n: Name, now: int)
    ensures CoverOf(sha1, z, n, now, true).Some? <==> LiveCover(sha1, z, n, now)
  {
    hide HashOf, IntervalContains;
  }

  lemma EncloserExactly(sha1: Bytes -> Hash, z: ZoneEntries, q: Name, cur: Name, m: Entry, now: int)
    ensures EncloserProof(sha1, z, q, cur, m, now).Some? <==> CoversBelow(sha1, z, q, cur, now)
  {
    hide CoverOf, LiveCover, OneLabelLonger, WildcardAt;
    if OneLabelLonger(q, Depth(cur)).Some? {
      CoverExactly(sha1, z, OneLabelLonger(q, Depth(cur)).value, now);
    }
    if WildcardAt(cur).Some? {
      CoverExactly(sha1, z, WildcardAt(cur).value, now);
    }
  }

  lemma FirstMatchHere(sha1: Bytes -> Hash, z: ZoneEntries, cur: Name, encloser: Name, now: int)
    requires LiveMatch(sha1, z, cur, now)
    ensures FirstMatch(sha1, z, cur, encloser, now) <==> encloser == cur
  {
    hide LiveMatch;
    forall n | AtOrBelow(cur, n) && AtOrBelow(n, cur)
      ensures n == cur
    {
      AtOrBelowDepth(cur, n);
      AtOrBelowDepth(n, cur);
    }
  }

  lemma FirstMatchAbove(sha1: Bytes -> Hash, z: ZoneEntries, cur: Name, encloser: Name, now: int)
    requires !LiveMatch(sha1, z, cur, now)
    ensures FirstMatch(sha1, z, cur, encloser, now) <==> cur.Sub? && FirstMatch(sha1, z, cur.parent, encloser, now)
  {
    hide LiveMatch;
  }

  /** A proof is found exactly when the first live match has its two covers. */
  lemma {:induction false} ProofExactly(sha1: Bytes -> Hash, z: ZoneEntries, q: Name, cur: Name, now: int)
    requires Sorted(z.entries)
    ensures ProofFrom(sha1, z, q, cur, now).Some? <==>
            exists encloser :: FirstMatch(sha1, z, cur, encloser, now) && CoversBelow(sha1, z, q, encloser, now)
    decreases cur
  {
    hide MatchOf, EncloserProof, LiveMatch, FirstMatch, CoversBelow, Sorted;
    MatchExactly(sha1, z, cur, now);
    if MatchOf(sha1, z, cur, now).Some? {
      EncloserExactly(sha1, z, q, cur, MatchOf(sha1, z, cur, now).value, now);
      forall encloser
        ensures FirstMatch(sha1, z, cur, encloser, now) <==> encloser == cur
      {
        FirstMatchHere(sha1, z, cur, encloser, now);
      }
    } else {
      if cur.Sub? {
        ProofExactly(sha1, z, q, cur.parent, now);
      }
      forall encloser
        ensures FirstMatch(sha1, z, cur, encloser, now) <==> cur.Sub? && FirstMatch(sha1, z, cur.parent, encloser, now)
      {
        FirstMatchAbove(sha1, z, cur, encloser, now);
      }
    }
  }

  /** The entry is alive and has the hash of the name. */
  ghost predicate OwnEntry(sha1: Bytes -> Hash, z: ZoneEntries, n: Name, now: int, e: Entry) {
    e in z.entries && e.expiresAt > now && HashOf(sha1, n, z.params) == Some(e.ownerHash)
  }

  lemma OwnEntryExactly(sha1: Bytes -> Hash, z: ZoneEntries, n: Name, now: int, e: Entry)
    requires Sorted(z.entries)
    ensures MatchOf(sha1, z, n, now) == Some(e) <==> OwnEntry(sha1, z, n, now, e)
  {
    hide HashOf, Position, BytesLess;
    if HashOf(sha1, n, z.params).Some? {
      SearchFinds(z.entries, HashOf(sha1, n, z.params).value);
      if OwnEntry(sha1, z, n, now, e) {
        MatchExactly(sha1, z, n, now);
        SortedUnique(z.entries, MatchOf(sha1, z, n, now).value, e);
      }
    }
  }

  /** A live entry of the name's own without the type and without CNAME. */
  ghost predicate Denies(sha1: Bytes -> Hash, z: ZoneEntries, q: Name, qtype: uint16, now: int, e: Entry) {
    OwnEntry(sha1, z, q, now, e) && TYPE_CNAME !in e.types && qtype !in e.types
  }

  /** On a sorted bucket: NoData exactly by a live entry of the name that has neither the type nor CNAME;
      otherwise NXDOMAIN exactly when the first live match on the way up has its covers; and nothing
      else. */
  lemma VerdictExactly(sha1: Bytes -> Hash, z: ZoneEntries, q: Name, qtype: uint16, now: int)
    requires Sorted(z.entries)
    ensures var v := VerdictIn(sha1, z, q, qtype, now);
            && (forall e :: v == NoData(e) <==> Denies(sha1, z, q, qtype, now, e))
            && (v.NameError? <==>
                  && (forall e :: !Denies(sha1, z, q, qtype, now, e))
                  && exists encloser :: FirstMatch(sha1, z, q, encloser, now) && CoversBelow(sha1, z, q, encloser, now))
  {
    hide MatchOf, ProofFrom, FirstMatch, CoversBelow, Sorted, OwnEntry;
    forall e
      ensures MatchOf(sha1, z, q, now) == Some(e) <==> OwnEntry(sha1, z, q, now, e)
    {
      OwnEntryExactly(sha1, z, q, now, e);
    }
    ProofExactly(sha1, z, q, q, now);
  }

  ghost predicate Uses(v: Verdict, e: Entry) {
    match v
    case NoProof => false
    case NoData(m) => e == m
    case NameError(p) => e == p.matched || e == p.nextCloser || e == p.wildcard
  }

  lemma EncloserProofLive(sha1: Bytes -> Hash, z: ZoneEntries, q: Name, cur: Name, m: Entry, now: int)
    requires m in z.entries && m.expiresAt > now && EncloserProof(sha1, z, q, cur, m, now).Some?
    ensures forall e :: Uses(NameError(EncloserProof(sha1, z, q, cur, m, now).value), e) ==> e in z.entries && e.expiresAt > now
  {
    hide HashOf, IntervalContains, OneLabelLonger, WildcardAt;
  }

  lemma {:induction false} ProofLive(sha1: Bytes -> Hash, z: ZoneEntries, q: Name, cur: Name, now: int)
    requires ProofFrom(sha1, z, q, cur, now).Some?
    ensures forall e :: Uses(NameError(ProofFrom(sha1, z, q, cur, now).value), e) ==> e in z.entries && e.expiresAt > now
    decreases cur
  {
    hide Uses, EncloserProof, MatchOf;
    match MatchOf(sha1, z, cur, now)
    case Some(m) => EncloserProofLive(sha1, z, q, cur, m, now);
    case None => ProofLive(sha1, z, q, cur.parent, now);
  }

  /** Every entry a verdict rests on is in the zone's bucket and has not expired. */
  lemma VerdictLive(sha1: Bytes -> Hash, zones: ZoneTable, apex: Name, q: Name, qtype: uint16, now: int, e: Entry)
    requires Uses(VerdictOf(sha1, zones, apex, q, qtype, now), e)
    ensures apex in zones && e in zones[apex].entries && e.expiresAt > now
  {
    hide MatchOf, ProofFrom;
    var z := zones[apex];
    if ProofFrom(sha1, z, q, q, now).Some? {
      ProofLive(sha1, z, q, q, now);
    }
  }

  // ----- what every change keeps -----

  lemma SweptTrue(w: World, sha1: Bytes -> Hash, zones: ZoneTable, now: int)
    requires IndexTrue(w, sha1, zones)
    ensures IndexTrue(w, sha1, Swept(zones, now))
  {
    hide EntryTrue;
    forall k | k in Swept(zones, now)
      ensures BucketTrue(w, sha1, k, Swept(zones, now)[k])
    {
      FilterMember(zones[k].entries, Live(now));
      assert BucketTrue(w, sha1, k, zones[k]);
    }
  }

  lemma EvictedTrue(w: World, sha1: Bytes -> Hash, zones: ZoneTable, after: ZoneTable)
    requires IndexTrue(w, sha1, zones) && Evicts(zones, after)
    ensures IndexTrue(w, sha1, after)
  {
    hide EntryTrue;
    if !NoEntries(zones) {
      var k, j :| Soonest(zones, k, j) && after == Without(zones, k, j);
      assert BucketTrue(w, sha1, k, zones[k]);
    }
  }

  lemma WithEntryTrue(w: World, sha1: Bytes -> Hash, zones: ZoneTable, key: Name, i: nat, e: Entry)
    requires IndexTrue(w, sha1, zones) && key in zones && i <= |zones[key].entries|
    requires EntryTrue(w, sha1, key, zones[key].params, e)
    ensures IndexTrue(w, sha1, WithEntryAt(zones, key, i, e))
  {
    hide EntryTrue;
    assert BucketTrue(w, sha1, key, zones[key]);
  }

  lemma WithZoneTrue(w: World, sha1: Bytes -> Hash, zones: ZoneTable, key: Name, params: Params)
    requires IndexTrue(w, sha1, zones)
    ensures IndexTrue(w, sha1, WithZone(zones, key, params))
  {
    hide EntryTrue;
  }

  ghost predicate KeepsParams(zones: ZoneTable, after: ZoneTable) {
    forall k :: k in after ==> k in zones && after[k].params == zones[k].params
  }

  lemma SweptKeepsParams(zones: ZoneTable, now: int)
    ensures KeepsParams(zones, Swept(zones, now))
  {
  }

  lemma EvictedKeepsParams(zones: ZoneTable, after: ZoneTable)
    requires Evicts(zones, after)
    ensures KeepsParams(zones, after)
  {
  }

  lemma StoreFreshTrue(w: World, sha1: Bytes -> Hash, zones: ZoneTable, key: Name, params: Params, e: Entry)
    requires IndexTrue(w, sha1, zones) && EntryTrue(w, sha1, key, params, e)
    requires key in zones ==> zones[key].params == params
    ensures IndexTrue(w, sha1, StoreFresh(zones, key, params, e))
  {
    hide EntryTrue, Position, WithEntryAt;
    var z := if key in zones then zones else zones[key := ZoneEntries(params, [])];
    assert IndexTrue(w, sha1, z);
    WithEntryTrue(w, sha1, z, key, Position(z[key].entries, e.ownerHash), e);
  }

  lemma StoreAtTrue(w: World, sha1: Bytes -> Hash, zones: ZoneTable, key: Name, params: Params, i: nat, e: Entry)
    requires IndexTrue(w, sha1, zones) && EntryTrue(w, sha1, key, params, e)
    requires key in zones ==> zones[key].params == params
    ensures IndexTrue(w, sha1, StoreAt(zones, key, i, e).0)
  {
    hide EntryTrue, WithEntryAt, IndexTrue;
    if key in zones && i <= |zones[key].entries| {
      WithEntryTrue(w, sha1, zones, key, i, e);
    }
  }

  lemma AddsTrue(
    w: World, sha1: Bytes -> Hash, zones: ZoneTable, maxLen: nat, key: Name, params: Params, e: Entry, now: int, after: ZoneTable, out: Outcome)
    requires IndexTrue(w, sha1, zones) && key in zones && zones[key].params == params && EntryTrue(w, sha1, key, params, e)
    requires Adds(zones, maxLen, key, params, e, now, after, out)
    ensures IndexTrue(w, sha1, after)
  {
    hide EntryTrue, IndexTrue, StoreAt, StoreFresh, Swept, Evicts, AtCap, Position;
    var swept := if AtCap(zones, maxLen) then Swept(zones, now) else zones;
    SweptTrue(w, sha1, zones, now);
    SweptKeepsParams(zones, now);
    if AtCap(swept, maxLen) {
      var evicted :| Evicts(swept, evicted) && after == StoreFresh(evicted, key, params, e);
      EvictedTrue(w, sha1, swept, evicted);
      EvictedKeepsParams(swept, evicted);
      StoreFreshTrue(w, sha1, evicted, key, params, e);
    } else {
      StoreAtTrue(w, sha1, swept, key, params, Position(zones[key].entries, e.ownerHash), e);
    }
  }

  lemma ReplaceTrue(w: World, sha1: Bytes -> Hash, zones: ZoneTable, key: Name, i: nat, e: Entry)
    requires IndexTrue(w, sha1, zones) && key in zones && i < |zones[key].entries|
    requires EntryTrue(w, sha1, key, zones[key].params, e)
    ensures IndexTrue(w, sha1, zones[key := zones[key].(entries := zones[key].entries[i := e])])
  {
    hide EntryTrue;
    assert BucketTrue(w, sha1, key, zones[key]);
  }

  /** Inserting a true entry keeps the index true, whatever had to make room for it. */
  lemma InsertsTrue(
    w: World, sha1: Bytes -> Hash, zones: ZoneTable, maxLen: nat, key: Name, params: Params, e: Entry, now: int, after: ZoneTable, out: Outcome)
    requires IndexTrue(w, sha1, zones) && EntryTrue(w, sha1, key, params, e)
    requires Inserts(zones, maxLen, key, params, e, now, after, out)
    ensures IndexTrue(w, sha1, after)
  {
    hide EntryTrue, IndexTrue, WithZone, Position, Adds;
    if Usable(params) {
      var z := WithZone(zones, key, params);
      WithZoneTrue(w, sha1, zones, key, params);
      var i := Position(z[key].entries, e.ownerHash);
      if FoundAt(z[key].entries, e.ownerHash, i) {
        ReplaceTrue(w, sha1, z, key, i, e);
      } else {
        AddsTrue(w, sha1, z, maxLen, key, params, e, now, after, out);
      }
    }
  }

  // ----- runs -----

  datatype Op = InsertOp(key: Name, params: Params, entry: Entry, now: int) | SweepOp(now: int)

  ghost predicate Step(maxLen: nat, zones: ZoneTable, op: Op, after: ZoneTable) {
    match op
    case InsertOp(key, params, e, now) => exists out :: Inserts(zones, maxLen, key, params, e, now, after, out)
    case SweepOp(now) => after == Swept(zones, now)
  }

  /** `states` is a run over `ops` from the empty index. */
  ghost predicate IsRun(maxLen: nat, ops: seq<Op>, states: seq<ZoneTable>) {
    && |states| == |ops| + 1 && states[0] == map[]
    && forall i :: 0 <= i < |ops| ==> Step(maxLen, states[i], ops[i], states[i + 1])
  }

  ghost predicate OpTrue(w: World, sha1: Bytes -> Hash, op: Op) {
    op.InsertOp? ==> EntryTrue(w, sha1, op.key, op.params, op.entry)
  }

  lemma {:induction false} RunTrue(w: World, sha1: Bytes -> Hash, maxLen: nat, ops: seq<Op>, states: seq<ZoneTable>, i: nat)
    requires IsRun(maxLen, ops, states) && i <= |ops| && forall op :: op in ops ==> OpTrue(w, sha1, op)
    ensures IndexTrue(w, sha1, states[i])
  {
    hide EntryTrue, Inserts, Swept;
    if i > 0 {
      RunTrue(w, sha1, maxLen, ops, states, i - 1);
      assert Step(maxLen, states[i - 1], ops[i - 1], states[i]) && OpTrue(w, sha1, ops[i - 1]);
      match ops[i - 1]
      case InsertOp(key, params, e, now) =>
        var out :| Inserts(states[i - 1], maxLen, key, params, e, now, states[i], out);
        InsertsTrue(w, sha1, states[i - 1], maxLen, key, params, e, now, states[i], out);
      case SweepOp(now) =>
        SweptTrue(w, sha1, states[i - 1], now);
    }
  }

  /** Whatever the index went through, its verdicts are true of the zone. */
  lemma ReachableVerdictsTrue(
    w: World, sha1: Bytes -> Hash, maxLen: nat, ops: seq<Op>, states: seq<ZoneTable>, i: nat,
    apex: Name, q: Name, qtype: uint16, now: int)
    requires IsRun(maxLen, ops, states) && i <= |ops| && forall op :: op in ops ==> OpTrue(w, sha1, op)
    requires ZoneShape(w, apex) && (apex in states[i] ==> CollisionFree(w, sha1, apex, states[i][apex].params))
    ensures TableVerdictTrue(w, sha1, states[i], apex, q, qtype, VerdictOf(sha1, states[i], apex, q, qtype, now))
  {
    hide TableVerdictTrue, VerdictOf, IndexTrue, ZoneShape, CollisionFree;
    RunTrue(w, sha1, maxLen, ops, states, i);
    LookupSound(w, sha1, states[i], apex, q, qtype, now);
  }

  // ----- the cap -----

  lemma TotalZone(zones: ZoneTable, key: Name, params: Params)
    ensures Total(WithZone(zones, key, params)) <= Total(zones)
  {
    if !(key in zones && zones[key].params == params) {
      TotalWith(zones, key, ZoneEntries(params, []));
      if key in zones {
        TotalWithout(zones, key);
      } else {
        assert zones - {key} == zones;
      }
    }
  }

  lemma TotalStored(zones: ZoneTable, key: Name, i: nat, e: Entry)
    requires key in zones && i <= |zones[key].entries|
    ensures Total(WithEntryAt(zones, key, i, e)) == Total(zones) + 1
  {
    TotalWith(zones, key, zones[key].(entries := Inserted(zones[key].entries, i, e)));
    TotalWithout(zones, key);
  }

  lemma {:induction false} TotalSwept(zones: ZoneTable, now: int)
    ensures Total(Swept(zones, now)) <= Total(zones)
    decreases |zones|
  {
    if zones != map[] {
      var k :| k in zones;
      TotalSwept(zones - {k}, now);
      TotalWithout(zones, k);
      assert Swept(zones - {k}, now) == Swept(zones, now) - {k};
      if k in Swept(zones, now) {
        TotalWithout(Swept(zones, now), k);
      } else {
        assert Swept(zones, now) - {k} == Swept(zones, now);
      }
    }
  }

  lemma {:induction false} TotalZero(zones: ZoneTable)
    requires NoEntries(zones)
    ensures Total(zones) == 0
    decreases |zones|
  {
    if zones != map[] {
      var k :| k in zones;
      TotalZero(zones - {k});
      TotalWithout(zones, k);
    }
  }

  lemma TotalEvicted(zones: ZoneTable, after: ZoneTable)
    requires Evicts(zones, after) && Total(zones) > 0
    ensures Total(after) == Total(zones) - 1
  {
    if NoEntries(zones) {
      TotalZero(zones);
    } else {
      var k, j :| Soonest(zones, k, j) && after == Without(zones, k, j);
      TotalWithout(zones, k);
      if |zones[k].entries| > 1 {
        TotalWith(zones, k, ZoneEntries(zones[k].params, Removed(zones[k].entries, j)));
      }
    }
  }

  lemma TotalFresh(zones: ZoneTable, key: Name, params: Params, e: Entry)
    ensures Total(StoreFresh(zones, key, params, e)) == Total(zones) + 1
  {
    hide Position, WithEntryAt;
    var z := if key in zones then zones else zones[key := ZoneEntries(params, [])];
    if key !in zones {
      TotalWith(zones, key, ZoneEntries(params, []));
      assert zones - {key} == zones;
    }
    TotalStored(z, key, Position(z[key].entries, e.ownerHash), e);
  }

  lemma AddsCapped(
    zones: ZoneTable, maxLen: nat, key: Name, params: Params, e: Entry, now: int, after: ZoneTable, out: Outcome)
    requires maxLen > 0 && Total(zones) <= maxLen && key in zones
    requires Adds(zones, maxLen, key, params, e, now, after, out)
    ensures Total(after) <= maxLen
  {
    hide StoreFresh, Swept, Evicts, Position, WithEntryAt;
    var swept := if AtCap(zones, maxLen) then Swept(zones, now) else zones;
    TotalSwept(zones, now);
    if AtCap(swept, maxLen) {
      var evicted :| Evicts(swept, evicted) && after == StoreFresh(evicted, key, params, e);
      TotalEvicted(swept, evicted);
      TotalFresh(evicted, key, params, e);
    } else {
      var i := Position(zones[key].entries, e.ownerHash);
      if key in swept && i <= |swept[key].entries| {
        TotalStored(swept, key, i, e);
      }
    }
  }

  /** With a cap, no insertion takes the index over it. */
  lemma InsertsCapped(
    zones: ZoneTable, maxLen: nat, key: Name, params: Params, e: Entry, now: int, after: ZoneTable, out: Outcome)
    requires maxLen > 0 && Total(zones) <= maxLen
    requires Inserts(zones, maxLen, key, params, e, now, after, out)
    ensures Total(after) <= maxLen
  {
    hide WithZone, Position, Adds;
    if Usable(params) {
      var z := WithZone(zones, key, params);
      TotalZone(zones, key, params);
      var i := Position(z[key].entries, e.ownerHash);
      if FoundAt(z[key].entries, e.ownerHash, i) {
        TotalWith(z, key, z[key].(entries := z[key].entries[i := e]));
        TotalWithout(z, key);
      } else {
        AddsCapped(z, maxLen, key, params, e, now, after, out);
      }
    }
  }

  lemma {:induction false} ReachableCapped(maxLen: nat, ops: seq<Op>, states: seq<ZoneTable>, i: nat)
    requires maxLen > 0 && IsRun(maxLen, ops, states) && i <= |ops|
    ensures Total(states[i]) <= maxLen
  {
    hide Inserts, Swept;
    if i > 0 {
      ReachableCapped(maxLen, ops, states, i - 1);
      assert Step(maxLen, states[i - 1], ops[i - 1], states[i]);
      match ops[i - 1]
      case InsertOp(key, params, e, now) =>
        var out :| Inserts(states[i - 1], maxLen, key, params, e, now, states[i], out);
        InsertsCapped(states[i - 1], maxLen, key, params, e, now, states[i], out);
      case SweepOp(now) =>
        TotalSwept(states[i - 1], now);
    }
  }

  // ----- when an insertion stores its entry -----

  function HeldBy(zones: ZoneTable, key: Name): nat {
    if key in zones then |zones[key].entries| else 0
  }

  /** The sweep made enough room, and left fewer entries than the computed position needs. */
  ghost predicate CutShort(zones: ZoneTable, maxLen: nat, key: Name, e: Entry, now: int)
    requires key in zones
  {
    && AtCap(zones, maxLen) && !AtCap(Swept(zones, now), maxLen)
    && HeldBy(Swept(zones, now), key) < Position(zones[key].entries, e.ownerHash)
  }

  /** The sweep made enough room and took the bucket with it, and the entry was to come first. */
  ghost predicate Orphaned(zones: ZoneTable, maxLen: nat, key: Name, e: Entry, now: int)
    requires key in zones
  {
    && AtCap(zones, maxLen) && !AtCap(Swept(zones, now), maxLen)
    && key !in Swept(zones, now) && Position(zones[key].entries, e.ownerHash) == 0
  }

  lemma AddsExactly(
    zones: ZoneTable, maxLen: nat, key: Name, params: Params, e: Entry, now: int, after: ZoneTable, out: Outcome)
    requires key in zones && Adds(zones, maxLen, key, params, e, now, after, out)
    ensures out == Panicked <==> CutShort(zones, maxLen, key, e, now)
    ensures out == Lost <==> Orphaned(zones, maxLen, key, e, now)
    ensures out == Kept ==> key in after && e in after[key].entries
    ensures out != Kept ==> after == Swept(zones, now)
  {
    hide Swept, Evicts, Position, AtCap;
    var swept := if AtCap(zones, maxLen) then Swept(zones, now) else zones;
    if AtCap(swept, maxLen) {
      var evicted :| Evicts(swept, evicted) && after == StoreFresh(evicted, key, params, e);
    }
  }

  ghost predicate NewIn(zones: ZoneTable, key: Name, e: Entry)
    requires key in zones
  {
    !FoundAt(zones[key].entries, e.ownerHash, Position(zones[key].entries, e.ownerHash))
  }

  /** An insertion with usable parameters panics, or drops its entry, or stores it, and which of the
      three can be told from the index before. */
  lemma InsertsExactly(
    zones: ZoneTable, maxLen: nat, key: Name, params: Params, e: Entry, now: int, after: ZoneTable, out: Outcome)
    requires Usable(params) && Inserts(zones, maxLen, key, params, e, now, after, out)
    ensures var z := WithZone(zones, key, params);
            && (out == Panicked <==> NewIn(z, key, e) && CutShort(z, maxLen, key, e, now))
            && (out == Lost <==> NewIn(z, key, e) && Orphaned(z, maxLen, key, e, now))
    ensures out == Kept ==> key in after && e in after[key].entries
    ensures out != Kept ==> after == Swept(WithZone(zones, key, params), now)
  {
    hide WithZone, Position, Adds, CutShort, Orphaned, Swept;
    var z := WithZone(zones, key, params);
    var i := Position(z[key].entries, e.ownerHash);
    if FoundAt(z[key].entries, e.ownerHash, i) {
      assert z[key].entries[i := e][i] == e;
    } else {
      AddsExactly(z, maxLen, key, params, e, now, after, out);
    }
  }

  lemma EmptyZoneCounts(zones: ZoneTable, key: Name, params: Params, now: int)
    requires key !in zones
    ensures Total(zones[key := ZoneEntries(params, [])]) == Total(zones)
    ensures Swept(zones[key := ZoneEntries(params, [])], now) == Swept(zones, now)
  {
    TotalWith(zones, key, ZoneEntries(params, []));
    assert zones - {key} == zones;
  }

  /** The first entry of a zone is dropped whenever it finds the index full of expired entries. */
  lemma FirstEntryLost(
    zones: ZoneTable, maxLen: nat, key: Name, params: Params, e: Entry, now: int, after: ZoneTable, out: Outcome)
    requires Usable(params) && key !in zones && AtCap(zones, maxLen) && !AtCap(Swept(zones, now), maxLen)
    requires Inserts(zones, maxLen, key, params, e, now, after, out)
    ensures out == Lost && after == Swept(zones, now) && key !in after
  {
    hide Swept, Total, Evicts, WithEntryAt;
    EmptyZoneCounts(zones, key, params, now);
    SweptKeepsParams(zones, now);
  }
}
