/** What the two filters keep, and how they compare. */
module BailiwickLaws {
  import opened Names
  import opened Records
  import opened Bailiwick

  // ----- the closure as paths -----

  /** `path` is a run of CNAME records of the answer from `a` to `b`. */
  ghost predicate Path(answers: seq<Record>, a: Name, path: seq<Record>, b: Name) {
    if path == [] then a == b
    else
      var r := path[|path| - 1];
      && r in answers && r.rdata.CnameData? && r.rdata.target == b
      && Path(answers, a, path[..|path| - 1], r.name)
  }

  ghost predicate Reachable(answers: seq<Record>, a: Name, b: Name) {
    exists path :: Path(answers, a, path, b)
  }

  lemma {:induction false} PathStays(answers: seq<Record>, a: Name, path: seq<Record>, b: Name, s: set<Name>)
    requires Path(answers, a, path, b) && a in s && Closed(answers, s)
    ensures b in s
  {
    if path != [] {
      PathStays(answers, a, path[..|path| - 1], path[|path| - 1].name, s);
      assert Links(path[|path| - 1], s);
    }
  }

  lemma ReachableStep(answers: seq<Record>, a: Name, r: Record)
    requires Reachable(answers, a, r.name) && r in answers && r.rdata.CnameData?
    ensures Reachable(answers, a, r.rdata.target)
  {
    var path :| Path(answers, a, path, r.name);
    assert (path + [r])[..|path|] == path;
    assert Path(answers, a, path + [r], r.rdata.target);
  }

  /** The grown chain is exactly what CNAME records of the answer lead to. */
  lemma ChainIsReachable(answers: seq<Record>, qname: Name, n: Name)
    ensures n in Chain(answers, qname) <==> Reachable(answers, qname, n)
  {
    hide Chain;
    ChainIsLeast(answers, qname);
    var chain := Chain(answers, qname);
    if path :| Path(answers, qname, path, n) {
      PathStays(answers, qname, path, n, chain);
    }
    var s := set x | x in chain && Reachable(answers, qname, x);
    assert Path(answers, qname, [], qname);
    forall r | r in answers && Links(r, s)
      ensures r.rdata.target in s
    {
      assert Links(r, chain);
      ReachableStep(answers, qname, r);
    }
    assert Closed(answers, s);
  }

  /** Both filters keep exactly the answers whose owner the query leads to. */
  lemma AnswersExactly(qname: Name, m: Sections, r: Record)
    ensures r in ForwardFilter(qname, m).answers <==> r in m.answers && Reachable(m.answers, qname, r.name)
    ensures ForwardFilter(qname, m).answers == RecursiveFilter(qname, m).answers
  {
    hide Reachable, Referenced, Mentioned, DenialZone, DeepestAncestor, Believed;
    ChainIsReachable(m.answers, qname, r.name);
    FilterMember(m.answers, OwnerIn(Chain(m.answers, qname)));
  }

  // ----- idempotence -----

  /** Dropping answers outside the chain does not change the chain. */
  lemma ChainAgain(answers: seq<Record>, qname: Name)
    ensures Chain(Filter(answers, OwnerIn(Chain(answers, qname))), qname) == Chain(answers, qname)
  {
    hide Chain;
    var chain := Chain(answers, qname);
    var kept := Filter(answers, OwnerIn(chain));
    FilterMember(answers, OwnerIn(chain));
    ChainIsLeast(answers, qname);
    ChainIsLeast(kept, qname);
    var again := Chain(kept, qname);
    assert Closed(kept, chain);
    assert again <= chain;
    forall r | r in answers && Links(r, again)
      ensures r.rdata.target in again
    {
      assert r.name in chain;
      assert r in kept;
    }
    assert Closed(answers, again);
  }

  lemma FilterAgain<T(!new)>(s: seq<T>, p: T -> bool)
    ensures Filter(Filter(s, p), p) == Filter(s, p)
  {
    FilterMember(s, p);
    FilterAll(Filter(s, p), p);
  }

  lemma AnswersAgain(answers: seq<Record>, qname: Name)
    ensures var kept := Filter(answers, OwnerIn(Chain(answers, qname)));
            Filter(kept, OwnerIn(Chain(kept, qname))) == kept
  {
    hide Chain;
    ChainAgain(answers, qname);
    FilterAgain(answers, OwnerIn(Chain(answers, qname)));
  }

  lemma ForwardIdempotent(qname: Name, m: Sections)
    ensures ForwardFilter(qname, ForwardFilter(qname, m)) == ForwardFilter(qname, m)
  {
    hide Chain, Referenced, Mentioned, Filter, OwnerIn, AboveQuery;
    var once := ForwardFilter(qname, m);
    AnswersAgain(m.answers, qname);
    FilterAgain(m.authority, AboveQuery(qname));
    FilterAgain(m.additional, Mentioned(Referenced(once.answers, once.authority)));
  }

  lemma {:induction false} FirstSoaKept(all: seq<Record>, p: Record -> bool)
    requires FirstSoaOwner(all).Some?
    requires forall r :: r in all && r.Type() == TYPE_SOA && r.name == FirstSoaOwner(all).value ==> p(r)
    ensures FirstSoaOwner(Filter(all, p)) == FirstSoaOwner(all)
  {
    assert all == [all[0]] + all[1..];
    FilterConcat([all[0]], all[1..], p);
    FilterSnoc([], all[0], p);
    assert [] + [all[0]] == [all[0]];
    if all[0].Type() == TYPE_SOA {
      assert all[0] in all;
      assert Filter(all, p)[0] == all[0];
    } else {
      FirstSoaKept(all[1..], p);
      if p(all[0]) {
        assert Filter(all, p)[1..] == Filter(all[1..], p);
      } else {
        assert Filter(all, p) == Filter(all[1..], p);
      }
    }
  }

  /** A believed SOA is kept, so it stays the first one. */
  lemma DenialZoneKept(qname: Name, authority: seq<Record>)
    requires DenialZone(qname, authority).Some?
    ensures var zone := DenialZone(qname, authority);
            DenialZone(qname, Filter(authority, Believed(qname, zone))) == zone
  {
    hide Filter;
    FirstSoaKept(authority, Believed(qname, DenialZone(qname, authority)));
  }

  lemma AuthorityAgain(qname: Name, authority: seq<Record>)
    ensures var kept := Filter(authority, Believed(qname, DenialZone(qname, authority)));
            Filter(kept, Believed(qname, DenialZone(qname, kept))) == kept
  {
    hide DenialZone;
    var zone := DenialZone(qname, authority);
    var kept := Filter(authority, Believed(qname, zone));
    FilterMember(authority, Believed(qname, zone));
    if zone.Some? {
      DenialZoneKept(qname, authority);
    }
    FilterAll(kept, Believed(qname, DenialZone(qname, kept)));
  }

  lemma RecursiveIdempotent(qname: Name, m: Sections)
    ensures RecursiveFilter(qname, RecursiveFilter(qname, m)) == RecursiveFilter(qname, m)
  {
    hide Chain, Referenced, InCutAndMentioned, Filter, OwnerIn, Believed, DenialZone, DeepestAncestor;
    var once := RecursiveFilter(qname, m);
    AnswersAgain(m.answers, qname);
    AuthorityAgain(qname, m.authority);
    FilterAgain(m.additional, InCutAndMentioned(DeepestAncestor(once.authority, qname), Referenced(once.answers, once.authority)));
  }

  // ----- comparison -----

  /** The forwarder's authority is the recursive resolver's without the denial records it has no
      zone for. */
  lemma AuthorityCompared(qname: Name, m: Sections)
    ensures ForwardFilter(qname, m).authority == Filter(RecursiveFilter(qname, m).authority, AboveQuery(qname))
  {
    hide DenialZone, Chain;
    FilterFilter(m.authority, Believed(qname, DenialZone(qname, m.authority)), AboveQuery(qname), AboveQuery(qname));
  }

  lemma ReferencedCompared(qname: Name, m: Sections)
    ensures var f, r := ForwardFilter(qname, m), RecursiveFilter(qname, m);
            Referenced(f.answers, f.authority) == Referenced(r.answers, r.authority)
  {
    hide Chain, DenialZone;
    var f, r := ForwardFilter(qname, m), RecursiveFilter(qname, m);
    FilterMember(m.authority, AboveQuery(qname));
    FilterMember(m.authority, Believed(qname, DenialZone(qname, m.authority)));
    forall x | x in r.authority && x.rdata.NsData?
      ensures x in f.authority
    {
      assert x.Type() == TYPE_NS;
    }
    forall x | x in f.authority
      ensures x in r.authority
    {
    }
  }

  /** The recursive resolver's additional section is the forwarder's, cut to the closest zone. */
  lemma AdditionalCompared(qname: Name, m: Sections)
    ensures var f, r := ForwardFilter(qname, m), RecursiveFilter(qname, m);
            r.additional == Filter(f.additional, InCut(DeepestAncestor(r.authority, qname)))
  {
    hide Chain, DenialZone, Believed, AboveQuery, OwnerIn, Referenced, DeepestAncestor;
    var f, r := ForwardFilter(qname, m), RecursiveFilter(qname, m);
    ReferencedCompared(qname, m);
    var s, cut := Referenced(r.answers, r.authority), DeepestAncestor(r.authority, qname);
    FilterFilter(m.additional, Mentioned(s), InCut(cut), InCutAndMentioned(cut, s));
  }

  /** As sets: same answers, more authority, less additional. */
  lemma FiltersCompared(qname: Name, m: Sections, r: Record)
    ensures ForwardFilter(qname, m).answers == RecursiveFilter(qname, m).answers
    ensures r in ForwardFilter(qname, m).authority ==> r in RecursiveFilter(qname, m).authority
    ensures r in RecursiveFilter(qname, m).additional ==> r in ForwardFilter(qname, m).additional
  {
    hide ForwardFilter, RecursiveFilter;
    AnswersExactly(qname, m, r);
    AuthorityCompared(qname, m);
    FilterMember(RecursiveFilter(qname, m).authority, AboveQuery(qname));
    AdditionalCompared(qname, m);
    FilterMember(ForwardFilter(qname, m).additional, InCut(DeepestAncestor(RecursiveFilter(qname, m).authority, qname)));
  }

  // ----- the zone cut -----

  lemma {:induction false} LongerIsBelow(q: Name, a: Name, b: Name)
    requires AtOrBelow(q, a) && AtOrBelow(q, b)
    ensures WireLen(a) <= WireLen(b) <==> AtOrBelow(b, a)
  {
    if Depth(a) <= Depth(b) {
      AncestorsNested(q, a, b);
      ShorterAbove(b, a);
    } else {
      AncestorsNested(q, b, a);
      ShorterAbove(a, b);
      if AtOrBelow(b, a) {
        AtOrBelowDepth(b, a);
      }
    }
  }

  lemma {:induction false} ShorterAbove(n: Name, anc: Name)
    requires AtOrBelow(n, anc)
    ensures WireLen(anc) <= WireLen(n) && (n != anc ==> WireLen(anc) < WireLen(n))
  {
    if n != anc {
      ShorterAbove(n.parent, anc);
    }
  }

  ghost predicate OwnerAbove(authority: seq<Record>, qname: Name, n: Name) {
    AtOrBelow(qname, n) && exists r :: r in authority && r.name == n
  }

  /** The cut is the deepest authority owner above the query, and absent only when there is none. */
  lemma {:induction false} DeepestAncestorIsDeepest(authority: seq<Record>, qname: Name, n: Name)
    ensures var best := DeepestAncestor(authority, qname);
            && (best.Some? ==> OwnerAbove(authority, qname, best.value))
            && (OwnerAbove(authority, qname, n) ==> best.Some? && AtOrBelow(best.value, n))
  {
    if authority != [] {
      var init, last := authority[..|authority| - 1], authority[|authority| - 1];
      assert authority == init + [last];
      DeepestAncestorIsDeepest(init, qname, n);
      var before := DeepestAncestor(init, qname);
      if AtOrBelow(qname, last.name) && before.Some? {
        LongerIsBelow(qname, last.name, before.value);
        LongerIsBelow(qname, before.value, last.name);
        if OwnerAbove(init, qname, n) && AtOrBelow(last.name, before.value) {
          AtOrBelowTransitive(last.name, before.value, n);
        }
      }
    }
  }

  // ----- each section, record by record -----

  /** The records of `all` that are in `kept`, all of them and in order. */
  ghost predicate InOrder(kept: seq<Record>, all: seq<Record>) {
    kept == Filter(all, (r: Record) => r in kept)
  }

  lemma FilterInOrder(all: seq<Record>, p: Record -> bool)
    ensures InOrder(Filter(all, p), all)
  {
    hide Filter;
    var kept := Filter(all, p);
    FilterMember(all, p);
    FilterAgrees(all, p, (r: Record) => r in kept);
  }

  lemma SectionsInOrder(qname: Name, m: Sections)
    ensures var f, r := ForwardFilter(qname, m), RecursiveFilter(qname, m);
            && InOrder(f.answers, m.answers) && InOrder(f.authority, m.authority) && InOrder(f.additional, m.additional)
            && InOrder(r.answers, m.answers) && InOrder(r.authority, m.authority) && InOrder(r.additional, m.additional)
  {
    hide Filter, Chain, Referenced, InOrder, DenialZone, DeepestAncestor;
    var f, r := ForwardFilter(qname, m), RecursiveFilter(qname, m);
    FilterInOrder(m.answers, OwnerIn(Chain(m.answers, qname)));
    FilterInOrder(m.authority, AboveQuery(qname));
    FilterInOrder(m.additional, Mentioned(Referenced(f.answers, f.authority)));
    FilterInOrder(m.authority, Believed(qname, DenialZone(qname, m.authority)));
    FilterInOrder(m.additional, InCutAndMentioned(DeepestAncestor(r.authority, qname), Referenced(r.answers, r.authority)));
  }

  /** The owner is the query name or above it, and the root only for the root. */
  ghost predicate Above(qname: Name, owner: Name) {
    AtOrBelow(qname, owner) && (owner.Root? ==> qname.Root?)
  }

  /** A denial record inside the zone of the first SOA, which is above the query. */
  ghost predicate DenialRecord(qname: Name, authority: seq<Record>, r: Record) {
    && (r.Type() == TYPE_NSEC || r.Type() == TYPE_NSEC3 || r.Type() == TYPE_RRSIG)
    && exists i: nat :: FirstAt(authority, OfType(TYPE_SOA), i) && Above(qname, authority[i].name) && AtOrBelow(r.name, authority[i].name)
  }

  lemma {:induction false} FirstSoaOwnerAt(authority: seq<Record>, i: nat)
    requires FirstAt(authority, OfType(TYPE_SOA), i)
    ensures FirstSoaOwner(authority) == Some(authority[i].name)
  {
    if i > 0 {
      assert authority[0].Type() != TYPE_SOA;
      FirstShifts(authority, OfType(TYPE_SOA), i - 1);
      FirstSoaOwnerAt(authority[1..], i - 1);
    }
  }

  lemma {:induction false} FirstSoaOwnerFound(authority: seq<Record>) returns (i: nat)
    requires FirstSoaOwner(authority).Some?
    ensures FirstAt(authority, OfType(TYPE_SOA), i)
  {
    i := 0;
    if authority[0].Type() != TYPE_SOA {
      i := FirstSoaOwnerFound(authority[1..]);
      FirstShifts(authority, OfType(TYPE_SOA), i);
      i := i + 1;
    }
  }

  lemma DenialExactly(qname: Name, authority: seq<Record>, r: Record)
    ensures InDenialZone(DenialZone(qname, authority), r) <==> DenialRecord(qname, authority, r)
  {
    hide FirstSoaOwner, AtOrBelow;
    if InDenialZone(DenialZone(qname, authority), r) {
      var i := FirstSoaOwnerFound(authority);
      FirstSoaOwnerAt(authority, i);
    }
    if DenialRecord(qname, authority, r) {
      var i: nat :| FirstAt(authority, OfType(TYPE_SOA), i) && Above(qname, authority[i].name) && AtOrBelow(r.name, authority[i].name);
      FirstSoaOwnerAt(authority, i);
    }
  }

  /** The forwarder believes owners above the query; the recursive resolver also believes denial
      records of the answering zone. */
  lemma AuthorityExactly(qname: Name, m: Sections, r: Record)
    ensures r in ForwardFilter(qname, m).authority <==> r in m.authority && Above(qname, r.name)
    ensures r in RecursiveFilter(qname, m).authority <==>
              r in m.authority && (r.name.Root? ==> qname.Root?) && (AtOrBelow(qname, r.name) || DenialRecord(qname, m.authority, r))
  {
    hide Filter, Chain, Referenced, FirstSoaOwner, DeepestAncestor, AtOrBelow;
    FilterMember(m.authority, AboveQuery(qname));
    FilterMember(m.authority, Believed(qname, DenialZone(qname, m.authority)));
    DenialExactly(qname, m.authority, r);
  }

  /** A kept CNAME or NS record points at the name. */
  ghost predicate PointedAt(kept: Sections, n: Name) {
    || (exists a :: a in kept.answers && a.rdata == CnameData(n))
    || (exists a :: a in kept.authority && a.rdata == NsData(n))
  }

  /** Additional records are kept for the names pointed at, by the recursive resolver only below every
      owner above the query that it believes; OPT is always kept. */
  lemma AdditionalExactly(qname: Name, m: Sections, r: Record)
    ensures var f := ForwardFilter(qname, m);
            r in f.additional <==> r in m.additional && (r.Type() == TYPE_OPT || PointedAt(f, r.name))
    ensures var f := RecursiveFilter(qname, m);
            r in f.additional <==>
              && r in m.additional
              && (r.Type() == TYPE_OPT ||
                  (PointedAt(f, r.name) && forall a :: a in f.authority && AtOrBelow(qname, a.name) ==> AtOrBelow(r.name, a.name)))
  {
    hide Filter, Chain, Believed, DenialZone, DeepestAncestor, AtOrBelow, Referenced;
    var f, g := ForwardFilter(qname, m), RecursiveFilter(qname, m);
    FilterMember(m.additional, Mentioned(Referenced(f.answers, f.authority)));
    FilterMember(m.additional, InCutAndMentioned(DeepestAncestor(g.authority, qname), Referenced(g.answers, g.authority)));
    ReferencedExactly(f, r.name);
    ReferencedExactly(g, r.name);
    CutExactly(g.authority, qname, r.name);
  }

  lemma ReferencedExactly(kept: Sections, n: Name)
    ensures n in Referenced(kept.answers, kept.authority) <==> PointedAt(kept, n)
  {
  }

  lemma CutExactly(authority: seq<Record>, qname: Name, n: Name)
    ensures var cut := DeepestAncestor(authority, qname);
            cut.None? || AtOrBelow(n, cut.value) <==> forall a :: a in authority && AtOrBelow(qname, a.name) ==> AtOrBelow(n, a.name)
  {
    hide AtOrBelow, DeepestAncestor;
    var cut := DeepestAncestor(authority, qname);
    forall a | a in authority && AtOrBelow(qname, a.name)
      ensures cut.Some? && AtOrBelow(cut.value, a.name)
    {
      assert OwnerAbove(authority, qname, a.name);
      DeepestAncestorIsDeepest(authority, qname, a.name);
    }
    DeepestAncestorIsDeepest(authority, qname, n);
    if cut.Some? && AtOrBelow(n, cut.value) {
      forall a | a in authority && AtOrBelow(qname, a.name)
        ensures AtOrBelow(n, a.name)
      {
        AtOrBelowTransitive(n, cut.value, a.name);
      }
    }
  }
}
