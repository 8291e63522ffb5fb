/** Answering a query from a zone: delegation, exact match, empty non-terminals, DNAME
    redirection, wildcard synthesis and the CNAME chase.  The functions give the answer as a
    value; the methods are the loops that compute it. */
module Lookup {
  import opened Names
  import opened Records
  import opened Zones

  const MAX_CHAIN: nat := 8

  // ----- matching one bucket -----

  datatype Match = Final(ans: seq<Record>) | Follow(cname: Record, target: Name)

  function FirstCname(recs: seq<Record>): (r: Option<Record>)
    ensures r.Some? ==> r.value in recs && r.value.rdata.CnameData?
  {
    if recs == [] then None
    else if recs[0].rdata.CnameData? then Some(recs[0])
    else FirstCname(recs[1..])
  }

  function FirstDname(recs: seq<Record>): (r: Option<Record>)
    ensures r.Some? ==> r.value in recs && r.value.rdata.DnameData?
  {
    if recs == [] then None
    else if recs[0].rdata.DnameData? then Some(recs[0])
    else FirstDname(recs[1..])
  }

  function MatchOf(recs: seq<Record>, t: uint16): Match {
    if Filter(recs, OfType(t)) != [] then Final(Filter(recs, OfType(t)))
    else if t != TYPE_CNAME && FirstCname(recs).Some? then
      Follow(FirstCname(recs).value, FirstCname(recs).value.rdata.target)
    else Final([])
  }

  // ----- suffix replacement -----

  /** `n` with the suffix `owner` replaced by `target`. */
  function Graft(n: Name, owner: Name, target: Name): Name {
    if n == owner || n.Root? then target else Sub(n.head, Graft(n.parent, owner, target))
  }

  /** The replacement, unless `n` is not strictly below `owner` or the result is too long. */
  function Substitute(n: Name, owner: Name, target: Name): Option<Name> {
    if StrictlyBelow(n, owner) && Representable(Graft(n, owner, target))
    then Some(Graft(n, owner, target)) else None
  }

  // ----- climbing -----

  /** The NS records of the nearest cut between `n` and the origin (exclusive). */
  function Delegation(z: Zone, n: Name): seq<Record> {
    if n == z.origin then []
    else if Filter(Bucket(z, n), OfType(TYPE_NS)) != [] then Filter(Bucket(z, n), OfType(TYPE_NS))
    else if n.Root? then []
    else Delegation(z, n.parent)
  }

  function Encloser(z: Zone, n: Name): Option<Name> {
    if n.Root? then None else Nearest(n.parent, m => m in z.namesExist)
  }

  datatype Redirect = Redirect(dname: Record, synth: Name)

  /** The redirection of `q` by the nearest DNAME strictly above `cur`; an unrepresentable
      substitution ends the search. */
  function RedirectAbove(z: Zone, q: Name, cur: Name): Option<Redirect> {
    if cur.Root? then None
    else
      match FirstDname(Bucket(z, cur.parent))
      case None => RedirectAbove(z, q, cur.parent)
      case Some(r) =>
        match Substitute(q, cur.parent, r.rdata.target)
        case None => None
        case Some(s) => Some(Redirect(r, s))
  }

  // ----- one name of the chase -----

  datatype Outcome = Answer(recs: seq<Record>) | NoData | NoName | Chase(recs: seq<Record>, next: Name)

  function Rewritten(recs: seq<Record>, owner: Name): (out: seq<Record>)
    ensures |out| == |recs|
    ensures forall i :: 0 <= i < |recs| ==> out[i] == recs[i].(name := owner)
  {
    if recs == [] then [] else [recs[0].(name := owner)] + Rewritten(recs[1..], owner)
  }

  /** What a matched bucket yields under owner `n`. */
  function FromMatch(m: Match, n: Name, rewrite: bool): Outcome {
    match m
    case Follow(r, target) => Chase([if rewrite then r.(name := n) else r], target)
    case Final(ans) => if ans == [] then NoData else Answer(if rewrite then Rewritten(ans, n) else ans)
  }

  function WildcardBucket(z: Zone, n: Name): seq<Record> {
    match Encloser(z, n)
    case None => []
    case Some(e) => if Representable(Wildcard(e)) then Bucket(z, Wildcard(e)) else []
  }

  function Synthesised(n: Name, r: Redirect): Record {
    Record(n, CLASS_IN, r.dname.ttl, CnameData(r.synth))
  }

  function RedirectChase(n: Name, r: Redirect): Outcome {
    Chase([r.dname, Synthesised(n, r)], r.synth)
  }

  function At(z: Zone, n: Name, t: uint16): Outcome {
    if n in z.byName then FromMatch(MatchOf(z.byName[n], t), n, false)
    else if n in z.namesExist then NoData
    else
      match RedirectAbove(z, n, n)
      case Some(r) => RedirectChase(n, r)
      case None =>
        if WildcardBucket(z, n) != [] then FromMatch(MatchOf(WildcardBucket(z, n), t), n, true)
        else NoName
  }

  // ----- the whole answer -----

  datatype Response = Response(answer: seq<Record>, authority: seq<Record>, additional: seq<Record>, rcode: Rcode, aa: bool)

  /** The chase from `n` with `chain` links already followed, given the outcome at each name. */
  function ChaseFrom(at: Name -> Outcome, soa: Record, n: Name, chain: nat, answer: seq<Record>): Response
    requires chain <= MAX_CHAIN
    decreases MAX_CHAIN - chain
  {
    if chain == MAX_CHAIN then Response(answer, [], [], ServFail, true)
    else
      match at(n)
      case Answer(recs) => Response(answer + recs, [], [], NoError, true)
      case Chase(recs, next) => ChaseFrom(at, soa, next, chain + 1, answer + recs)
      case NoData => Response(answer, if chain == 0 then [soa] else [], [], NoError, true)
      case NoName =>
        if chain == 0 then Response([], [soa], [], NXDomain, true) else Response(answer, [], [], NoError, true)
  }

  function Outcomes(z: Zone, t: uint16): Name -> Outcome {
    (n: Name) => At(z, n, t)
  }

  function GlueFor(z: Zone, ns: Record): seq<Record> {
    if ns.rdata.NsData? then Filter(Bucket(z, ns.rdata.target), IsAddress()) else []
  }

  function IsAddress(): Record -> bool {
    (r: Record) => r.Type() == TYPE_A || r.Type() == TYPE_AAAA
  }

  function Glue(z: Zone, ns: seq<Record>): seq<Record> {
    if ns == [] then [] else Glue(z, ns[..|ns| - 1]) + GlueFor(z, ns[|ns| - 1])
  }

  function LookupOf(z: Zone, q: Name, t: uint16): Response {
    var ns := Delegation(z, q);
    if ns != [] then Response([], ns, Glue(z, ns), NoError, false)
    else ChaseFrom(Outcomes(z, t), z.soaRec, q, 0, [])
  }

  // ----- the loops -----

  method MatchRRSet(recs: seq<Record>, t: uint16) returns (m: Match)
    ensures m == MatchOf(recs, t)
  {
    var matched: seq<Record> := [];
    for i := 0 to |recs|
      invariant matched == Filter(recs[..i], OfType(t))
    {
      FilterPrefix(recs, i, OfType(t));
      if recs[i].Type() == t {
        matched := matched + [recs[i]];
      }
    }
    assert recs[..|recs|] == recs;
    if |matched| > 0 {
      return Final(matched);
    }
    if t != TYPE_CNAME {
      var i := 0;
      while i < |recs|
        invariant i <= |recs|
        invariant FirstCname(recs) == FirstCname(recs[i..])
      {
        assert recs[i..][1..] == recs[i + 1..];
        if recs[i].rdata.CnameData? {
          return Follow(recs[i], recs[i].rdata.target);
        }
        i := i + 1;
      }
    }
    return Final([]);
  }

  method FindDelegation(z: Zone, q: Name) returns (ns: seq<Record>)
    ensures ns == Delegation(z, q)
  {
    var cur := q;
    while true
      invariant Delegation(z, q) == Delegation(z, cur)
      decreases cur
    {
      if cur == z.origin {
        return [];
      }
      if cur in z.byName {
        var recs := z.byName[cur];
        ns := [];
        for i := 0 to |recs|
          invariant ns == Filter(recs[..i], OfType(TYPE_NS))
        {
          FilterPrefix(recs, i, OfType(TYPE_NS));
          if recs[i].Type() == TYPE_NS {
            ns := ns + [recs[i]];
          }
        }
        assert recs[..|recs|] == recs;
        if |ns| > 0 {
          return;
        }
      }
      if cur.Root? {
        return [];
      }
      cur := cur.parent;
    }
  }

  method ClosestEncloser(z: Zone, n: Name) returns (e: Option<Name>)
    ensures e == Encloser(z, n)
  {
    if n.Root? {
      return None;
    }
    var cur := n.parent;
    while true
      invariant Encloser(z, n) == Nearest(cur, m => m in z.namesExist)
      decreases cur
    {
      if cur in z.namesExist {
        return Some(cur);
      }
      if cur.Root? {
        return None;
      }
      cur := cur.parent;
    }
  }

  method FindDname(recs: seq<Record>) returns (r: Option<Record>)
    ensures r == FirstDname(recs)
  {
    var i := 0;
    while i < |recs|
      invariant i <= |recs|
      invariant FirstDname(recs) == FirstDname(recs[i..])
    {
      assert recs[i..][1..] == recs[i + 1..];
      if recs[i].rdata.DnameData? {
        return Some(recs[i]);
      }
      i := i + 1;
    }
    return None;
  }

  method FindDnameAncestor(z: Zone, q: Name) returns (r: Option<Redirect>)
    ensures r == RedirectAbove(z, q, q)
  {
    var cur := q;
    while true
      invariant RedirectAbove(z, q, q) == RedirectAbove(z, q, cur)
      decreases cur
    {
      if cur.Root? {
        return None;
      }
      cur := cur.parent;
      if cur in z.byName {
        var d := FindDname(z.byName[cur]);
        if d.Some? {
          var s := Substitute(q, cur, d.value.rdata.target);
          return if s.Some? then Some(Redirect(d.value, s.value)) else None;
        }
      }
    }
  }

  method CollectGlue(z: Zone, ns: seq<Record>) returns (glue: seq<Record>)
    ensures glue == Glue(z, ns)
  {
    glue := [];
    for i := 0 to |ns|
      invariant glue == Glue(z, ns[..i])
    {
      assert ns[..i + 1][..i] == ns[..i];
      if ns[i].rdata.NsData? && ns[i].rdata.target in z.byName {
        var recs := z.byName[ns[i].rdata.target];
        ghost var before := glue;
        for j := 0 to |recs|
          invariant glue == before + Filter(recs[..j], IsAddress())
        {
          FilterPrefix(recs, j, IsAddress());
          if recs[j].Type() == TYPE_A || recs[j].Type() == TYPE_AAAA {
            glue := glue + [recs[j]];
          }
        }
        assert recs[..|recs|] == recs;
      }
    }
    assert ns[..|ns|] == ns;
  }

  /** The chase loop: at most eight links, each appending its records to the answer. */
  method LookupAuthoritative(z: Zone, q: Name, t: uint16) returns (res: Response)
    ensures res == ChaseFrom(Outcomes(z, t), z.soaRec, q, 0, [])
  {
    var current := q;
    var answer: seq<Record> := [];
    for chain := 0 to MAX_CHAIN
      invariant chain == 0 ==> answer == []
      invariant ChaseFrom(Outcomes(z, t), z.soaRec, q, 0, []) == ChaseFrom(Outcomes(z, t), z.soaRec, current, chain, answer)
    {
      var out := StepAt(z, current, t);
      match out {
        case Answer(recs) =>
          return Response(answer + recs, [], [], NoError, true);
        case NoData =>
          return Response(answer, if chain == 0 then [z.soaRec] else [], [], NoError, true);
        case NoName =>
          if chain == 0 {
            return Response([], [z.soaRec], [], NXDomain, true);
          }
          return Response(answer, [], [], NoError, true);
        case Chase(recs, next) =>
          answer := answer + recs;
          current := next;
      }
    }
    return Response(answer, [], [], ServFail, true);
  }

  /** One pass of the chase loop, in the order the branches are tried. */
  method StepAt(z: Zone, n: Name, t: uint16) returns (out: Outcome)
    ensures out == At(z, n, t)
  {
    if n in z.byName {
      var m := MatchRRSet(z.byName[n], t);
      return FromMatch(m, n, false);
    }
    if n in z.namesExist {
      return NoData;
    }
    var r := FindDnameAncestor(z, n);
    if r.Some? {
      return Chase([r.value.dname, Synthesised(n, r.value)], r.value.synth);
    }
    var e := ClosestEncloser(z, n);
    if e.Some? && Representable(Wildcard(e.value)) && Wildcard(e.value) in z.byName {
      var recs := z.byName[Wildcard(e.value)];
      if recs != [] {
        var m := MatchRRSet(recs, t);
        return FromMatch(m, n, true);
      }
    }
    return NoName;
  }

  /** The whole in-zone lookup. */
  method LookupZone(z: Zone, q: Name, t: uint16) returns (res: Response)
    ensures res == LookupOf(z, q, t)
  {
    var ns := FindDelegation(z, q);
    if |ns| > 0 {
      var glue := CollectGlue(z, ns);
      return Response([], ns, glue, NoError, false);
    }
    res := LookupAuthoritative(z, q, t);
  }
}
