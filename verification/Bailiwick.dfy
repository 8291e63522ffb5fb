/** Dropping records an upstream had no business sending: the forwarder's filter and the recursive
    resolver's filter, both around the same CNAME closure. */
module Bailiwick {
  import opened Names
  import opened Records

  datatype Sections = Sections(answers: seq<Record>, authority: seq<Record>, additional: seq<Record>)

  // ----- the CNAME closure -----

  predicate Links(r: Record, s: set<Name>) {
    r.rdata.CnameData? && r.name in s
  }

  /** No CNAME of the answer leads out of the set. */
  predicate Closed(answers: seq<Record>, s: set<Name>) {
    forall r :: r in answers && Links(r, s) ==> r.rdata.target in s
  }

  /** The smallest set of names that holds `qname` and is closed under the answer's CNAMEs. */
  ghost predicate IsLeast(answers: seq<Record>, qname: Name, s: set<Name>) {
    qname in s && Closed(answers, s) && forall t :: qname in t && Closed(answers, t) ==> s <= t
  }

  function Targets(answers: seq<Record>): set<Name> {
    set r | r in answers && r.rdata.CnameData? :: r.rdata.target
  }

  /** One step of the closure. */
  function Step(answers: seq<Record>, s: set<Name>): set<Name> {
    s + set r | r in answers && Links(r, s) :: r.rdata.target
  }

  lemma StepSmaller(answers: seq<Record>, s: set<Name>)
    requires Step(answers, s) != s
    ensures |Targets(answers) - Step(answers, s)| < |Targets(answers) - s|
  {
    var r :| r in answers && Links(r, s) && r.rdata.target !in s;
    assert r.rdata.target in Targets(answers);
    ProperSubsetSmaller(Targets(answers) - Step(answers, s), Targets(answers) - s, r.rdata.target);
  }

  function Closure(answers: seq<Record>, s: set<Name>): (c: set<Name>)
    ensures s <= c && Closed(answers, c)
    decreases |Targets(answers) - s|
  {
    var t := Step(answers, s);
    if t == s then s
    else
      StepSmaller(answers, s);
      Closure(answers, t)
  }

  lemma {:induction false} ClosureLeast(answers: seq<Record>, s: set<Name>, t: set<Name>)
    requires s <= t && Closed(answers, t)
    ensures Closure(answers, s) <= t
    decreases |Targets(answers) - s|
  {
    if Step(answers, s) != s {
      StepSmaller(answers, s);
      ClosureLeast(answers, Step(answers, s), t);
    }
  }

  function Chain(answers: seq<Record>, qname: Name): set<Name> {
    Closure(answers, {qname})
  }

  lemma ChainIsLeast(answers: seq<Record>, qname: Name)
    ensures IsLeast(answers, qname, Chain(answers, qname))
  {
    hide Closure;
    forall t | qname in t && Closed(answers, t)
      ensures Chain(answers, qname) <= t
    {
      ClosureLeast(answers, {qname}, t);
    }
  }

  lemma LeastIsChain(answers: seq<Record>, qname: Name, s: set<Name>)
    requires IsLeast(answers, qname, s)
    ensures s == Chain(answers, qname)
  {
    hide Closed, Chain;
    ChainIsLeast(answers, qname);
    assert s <= Chain(answers, qname) <= s;
  }

  // ----- growing the chain in place -----

  /** One pass over the answer: names added while it runs count at once. */
  method Pass(answers: seq<Record>, from: set<Name>) returns (chain: set<Name>, grew: bool)
    ensures from <= chain && (grew ==> |Targets(answers) - chain| < |Targets(answers) - from|)
    ensures !grew ==> chain == from && Closed(answers, chain)
    ensures forall t :: from <= t && Closed(answers, t) ==> chain <= t
  {
    chain, grew := from, false;
    var i := 0;
    while i < |answers|
      invariant 0 <= i <= |answers| && from <= chain
      invariant !grew ==> chain == from && forall r :: r in answers[..i] && Links(r, chain) ==> r.rdata.target in chain
      invariant grew ==> exists n :: n in Targets(answers) && n in chain && n !in from
      invariant forall t :: from <= t && Closed(answers, t) ==> chain <= t
    {
      var r := answers[i];
      if r.rdata.CnameData? && r.name in chain && r.rdata.target !in chain {
        assert r.rdata.target in Targets(answers);
        chain := chain + {r.rdata.target};
        grew := true;
      }
      assert answers[..i + 1] == answers[..i] + [r];
      i := i + 1;
    }
    assert answers[..i] == answers;
    if grew {
      var n :| n in Targets(answers) && n in chain && n !in from;
      ProperSubsetSmaller(Targets(answers) - chain, Targets(answers) - from, n);
    }
  }

  method GrowChain(answers: seq<Record>, qname: Name) returns (chain: set<Name>)
    ensures chain == Chain(answers, qname)
  {
    hide Chain, Targets;
    chain := {qname};
    var grew := true;
    while grew
      invariant qname in chain && (!grew ==> Closed(answers, chain))
      invariant forall t :: qname in t && Closed(answers, t) ==> chain <= t
      decreases |Targets(answers) - chain|, grew
    {
      ghost var before := chain;
      chain, grew := Pass(answers, chain);
    }
    LeastIsChain(answers, qname, chain);
  }

  // ----- the sections -----

  function OwnerIn(s: set<Name>): Record -> bool {
    (r: Record) => r.name in s
  }

  /** Authority at the root is not believed for any other name. */
  predicate RootClaim(qname: Name, owner: Name) {
    owner.Root? && !qname.Root?
  }

  function AboveQuery(qname: Name): Record -> bool {
    (r: Record) => AtOrBelow(qname, r.name) && !RootClaim(qname, r.name)
  }

  /** The names the kept records point at. */
  function Referenced(answers: seq<Record>, authority: seq<Record>): set<Name> {
    (set r | r in answers && r.rdata.CnameData? :: r.rdata.target)
    + set r | r in authority && r.rdata.NsData? :: r.rdata.target
  }

  function Mentioned(s: set<Name>): Record -> bool {
    (r: Record) => r.Type() == TYPE_OPT || r.name in s
  }

  function ForwardFilter(qname: Name, m: Sections): Sections {
    var answers := Filter(m.answers, OwnerIn(Chain(m.answers, qname)));
    var authority := Filter(m.authority, AboveQuery(qname));
    Sections(answers, authority, Filter(m.additional, Mentioned(Referenced(answers, authority))))
  }

  // ----- what the recursive resolver adds -----

  predicate IsDenialType(t: uint16) {
    t == TYPE_NSEC || t == TYPE_NSEC3 || t == TYPE_RRSIG
  }

  function FirstSoaOwner(authority: seq<Record>): Option<Name> {
    if authority == [] then None
    else if authority[0].Type() == TYPE_SOA then Some(authority[0].name)
    else FirstSoaOwner(authority[1..])
  }

  /** The zone whose denial records are believed: the owner of the first SOA, if that is an
      ancestor of the query and no root claim. */
  function DenialZone(qname: Name, authority: seq<Record>): Option<Name> {
    match FirstSoaOwner(authority)
    case None => None
    case Some(o) => if AtOrBelow(qname, o) && !RootClaim(qname, o) then Some(o) else None
  }

  predicate InDenialZone(zone: Option<Name>, r: Record) {
    zone.Some? && IsDenialType(r.Type()) && AtOrBelow(r.name, zone.value)
  }

  function Believed(qname: Name, zone: Option<Name>): Record -> bool {
    (r: Record) => !RootClaim(qname, r.name) && (AtOrBelow(qname, r.name) || InDenialZone(zone, r))
  }

  /** Of the owners above the query, the first one with the longest wire form. */
  function DeepestAncestor(authority: seq<Record>, qname: Name): (r: Option<Name>)
    ensures r.Some? ==> AtOrBelow(qname, r.value)
  {
    if authority == [] then None
    else
      var last := authority[|authority| - 1].name;
      var best := DeepestAncestor(authority[..|authority| - 1], qname);
      if AtOrBelow(qname, last) && (best.None? || WireLen(last) > WireLen(best.value)) then Some(last) else best
  }

  function InCut(cut: Option<Name>): Record -> bool {
    (r: Record) => r.Type() == TYPE_OPT || cut.None? || AtOrBelow(r.name, cut.value)
  }

  function InCutAndMentioned(cut: Option<Name>, s: set<Name>): Record -> bool {
    (r: Record) => r.Type() == TYPE_OPT || (r.name in s && (cut.None? || AtOrBelow(r.name, cut.value)))
  }

  function RecursiveFilter(qname: Name, m: Sections): Sections {
    var answers := Filter(m.answers, OwnerIn(Chain(m.answers, qname)));
    var authority := Filter(m.authority, Believed(qname, DenialZone(qname, m.authority)));
    Sections(answers, authority,
             Filter(m.additional, InCutAndMentioned(DeepestAncestor(authority, qname), Referenced(answers, authority))))
  }

  // ----- the loops -----

  method KeepAnswers(answers: seq<Record>, chain: set<Name>) returns (kept: seq<Record>)
    ensures kept == Filter(answers, OwnerIn(chain))
  {
    kept := [];
    for i := 0 to |answers|
      invariant kept == Filter(answers[..i], OwnerIn(chain))
    {
      FilterPrefix(answers, i, OwnerIn(chain));
      if answers[i].name in chain {
        kept := kept + [answers[i]];
      }
    }
    assert answers[..|answers|] == answers;
  }

  method CollectReferenced(answers: seq<Record>, authority: seq<Record>) returns (s: set<Name>)
    ensures s == Referenced(answers, authority)
  {
    s := {};
    for i := 0 to |answers|
      invariant s == Referenced(answers[..i], [])
    {
      if answers[i].rdata.CnameData? {
        s := s + {answers[i].rdata.target};
      }
      assert answers[..i + 1] == answers[..i] + [answers[i]];
    }
    assert answers[..|answers|] == answers;
    for i := 0 to |authority|
      invariant s == Referenced(answers, authority[..i])
    {
      if authority[i].rdata.NsData? {
        s := s + {authority[i].rdata.target};
      }
      assert authority[..i + 1] == authority[..i] + [authority[i]];
    }
    assert authority[..|authority|] == authority;
  }

  method FilterForward(qname: Name, m: Sections) returns (out: Sections)
    ensures out == ForwardFilter(qname, m)
  {
    hide Chain;
    var chain := GrowChain(m.answers, qname);
    var answers := KeepAnswers(m.answers, chain);
    var authority := [];
    for i := 0 to |m.authority|
      invariant authority == Filter(m.authority[..i], AboveQuery(qname))
    {
      FilterPrefix(m.authority, i, AboveQuery(qname));
      var above := InBailiwick(m.authority[i].name, qname);
      if above && !(m.authority[i].name.Root? && !qname.Root?) {
        authority := authority + [m.authority[i]];
      }
    }
    assert m.authority[..|m.authority|] == m.authority;
    var referenced := CollectReferenced(answers, authority);
    var additional := [];
    for i := 0 to |m.additional|
      invariant additional == Filter(m.additional[..i], Mentioned(referenced))
    {
      FilterPrefix(m.additional, i, Mentioned(referenced));
      if m.additional[i].Type() == TYPE_OPT || m.additional[i].name in referenced {
        additional := additional + [m.additional[i]];
      }
    }
    assert m.additional[..|m.additional|] == m.additional;
    return Sections(answers, authority, additional);
  }

  method FindDenialZone(qname: Name, authority: seq<Record>) returns (zone: Option<Name>)
    ensures zone == DenialZone(qname, authority)
  {
    zone := None;
    var i := 0;
    while i < |authority|
      invariant 0 <= i <= |authority| && zone == None
      invariant FirstSoaOwner(authority) == FirstSoaOwner(authority[i..])
    {
      assert authority[i..][1..] == authority[i + 1..];
      if authority[i].Type() == TYPE_SOA {
        zone := Some(authority[i].name);
        break;
      }
      i := i + 1;
    }
    if zone.Some? {
      var above := InBailiwick(zone.value, qname);
      if !above || (zone.value.Root? && !qname.Root?) {
        zone := None;
      }
    }
  }

  method KeepAuthority(qname: Name, zone: Option<Name>, all: seq<Record>) returns (kept: seq<Record>)
    ensures kept == Filter(all, Believed(qname, zone))
  {
    kept := [];
    for i := 0 to |all|
      invariant kept == Filter(all[..i], Believed(qname, zone))
    {
      FilterPrefix(all, i, Believed(qname, zone));
      var r := all[i];
      if !(r.name.Root? && !qname.Root?) {
        var above := InBailiwick(r.name, qname);
        if above {
          kept := kept + [r];
        } else if zone.Some? && IsDenialType(r.Type()) {
          var below := InBailiwick(zone.value, r.name);
          if below {
            kept := kept + [r];
          }
        }
      }
    }
    assert all[..|all|] == all;
  }

  method FindDeepest(authority: seq<Record>, qname: Name) returns (best: Option<Name>)
    ensures best == DeepestAncestor(authority, qname)
  {
    best := None;
    for i := 0 to |authority|
      invariant best == DeepestAncestor(authority[..i], qname)
    {
      assert authority[..i + 1][..i] == authority[..i];
      var n := authority[i].name;
      var above := InBailiwick(n, qname);
      if above && (best.None? || WireLen(n) > WireLen(best.value)) {
        best := Some(n);
      }
    }
    assert authority[..|authority|] == authority;
  }

  method KeepAdditional(cut: Option<Name>, referenced: set<Name>, all: seq<Record>) returns (kept: seq<Record>)
    ensures kept == Filter(all, InCutAndMentioned(cut, referenced))
  {
    kept := [];
    for i := 0 to |all|
      invariant kept == Filter(all[..i], InCutAndMentioned(cut, referenced))
    {
      FilterPrefix(all, i, InCutAndMentioned(cut, referenced));
      var r := all[i];
      if r.Type() == TYPE_OPT {
        kept := kept + [r];
      } else if r.name in referenced {
        var below := true;
        if cut.Some? {
          below := InBailiwick(cut.value, r.name);
        }
        if below {
          kept := kept + [r];
        }
      }
    }
    assert all[..|all|] == all;
  }

  method FilterRecursive(qname: Name, m: Sections) returns (out: Sections)
    ensures out == RecursiveFilter(qname, m)
  {
    hide Chain, DenialZone, DeepestAncestor;
    var chain := GrowChain(m.answers, qname);
    var answers := KeepAnswers(m.answers, chain);
    var zone := FindDenialZone(qname, m.authority);
    var authority := KeepAuthority(qname, zone, m.authority);
    var cut := FindDeepest(authority, qname);
    var referenced := CollectReferenced(answers, authority);
    var additional := KeepAdditional(cut, referenced, m.additional);
    return Sections(answers, authority, additional);
  }
}
