/** Following CNAMEs from answer to answer, each leg resolved anew. */
module CnameChase {
  import opened Names
  import opened Records

  const RCODE_OK: nat := 0

  /** The cached form of one result. */
  datatype Entry = Entry(
    answer: seq<Record>, authority: seq<Record>, additional: seq<Record>,
    rcode: nat, aa: bool, ad: bool, expiresAt: int)

  datatype Leg = Resolved(entry: Entry) | Failed(error: nat)

  datatype ChaseResult = Chased(entry: Entry) | CnameLoop | LegFailed(error: nat)

  function RecordsAt(recs: seq<Record>, n: Name): seq<Record> {
    Filter(recs, OwnedBy(n))
  }

  predicate CnameAt(r: Record, owner: Name) {
    r.rdata.CnameData? && r.name == owner
  }

  /** The target of the first CNAME at `owner`. */
  function PickTarget(recs: seq<Record>, owner: Name): (r: Option<Name>)
    ensures r.Some? ==> exists c :: c in recs && CnameAt(c, owner) && c.rdata.target == r.value
    ensures r.None? ==> forall c :: c in recs ==> !CnameAt(c, owner)
  {
    if recs == [] then None
    else if CnameAt(recs[0], owner) then Some(recs[0].rdata.target)
    else PickTarget(recs[1..], owner)
  }

  predicate HasTypeAt(recs: seq<Record>, owner: Name, t: uint16) {
    exists r :: r in recs && r.Type() == t && r.name == owner
  }

  /** The leg at `cur` ends the chase. */
  predicate Final(e: Entry, cur: Name, t: uint16) {
    t == TYPE_CNAME || PickTarget(e.answer, cur).None? || HasTypeAt(e.answer, cur, t)
  }

  // ----- the walk -----

  datatype End = Stopped | Looped | Broke(error: nat)

  /** The owners resolved, in order, and why the chase ended. */
  datatype Walk = Walk(legs: seq<Name>, end: End)

  function Chase(oracle: Name -> Leg, t: uint16, cur: Name, seen: set<Name>, budget: nat): Walk
    requires budget > 0
    decreases budget
  {
    if cur in seen then Walk([], Looped)
    else
      match oracle(cur)
      case Failed(e) => Walk([cur], Broke(e))
      case Resolved(entry) =>
        if Final(entry, cur, t) then Walk([cur], Stopped)
        else if budget == 1 then Walk([cur], Looped)
        else
          var w := Chase(oracle, t, PickTarget(entry.answer, cur).value, seen + {cur}, budget - 1);
          Walk([cur] + w.legs, w.end)
  }

  // ----- the aggregate -----

  ghost predicate AllResolved(oracle: Name -> Leg, legs: seq<Name>) {
    forall n :: n in legs ==> oracle(n).Resolved?
  }

  function OwnRecords(oracle: Name -> Leg, legs: seq<Name>): seq<Record>
    requires forall n :: n in legs ==> oracle(n).Resolved?
  {
    if legs == [] then []
    else
      var last := legs[|legs| - 1];
      OwnRecords(oracle, legs[..|legs| - 1]) + RecordsAt(oracle(last).entry.answer, last)
  }

  function Earliest(oracle: Name -> Leg, legs: seq<Name>): (r: int)
    requires legs != [] && forall n :: n in legs ==> oracle(n).Resolved?
    ensures forall n :: n in legs ==> r <= oracle(n).entry.expiresAt
    ensures exists n :: n in legs && r == oracle(n).entry.expiresAt
  {
    var init, last := legs[..|legs| - 1], legs[|legs| - 1];
    var here := oracle(last).entry.expiresAt;
    assert legs == init + [last];
    if init == [] then here
    else
      var before := Earliest(oracle, init);
      if here < before then here else before
  }

  /** The code of the last leg that had one, or success. */
  function LastCode(oracle: Name -> Leg, legs: seq<Name>): nat
    requires forall n :: n in legs ==> oracle(n).Resolved?
  {
    if legs == [] then RCODE_OK
    else
      var here := oracle(legs[|legs| - 1]).entry.rcode;
      if here != RCODE_OK then here else LastCode(oracle, legs[..|legs| - 1])
  }

  function Aggregate(oracle: Name -> Leg, legs: seq<Name>): Entry
    requires legs != [] && forall n :: n in legs ==> oracle(n).Resolved?
  {
    oracle(legs[0]).entry.(
      answer := OwnRecords(oracle, legs), rcode := LastCode(oracle, legs), expiresAt := Earliest(oracle, legs))
  }

  function ResultOf(oracle: Name -> Leg, w: Walk): ChaseResult
    requires w.end.Stopped? ==> w.legs != [] && forall n :: n in w.legs ==> oracle(n).Resolved?
  {
    match w.end
    case Stopped => Chased(Aggregate(oracle, w.legs))
    case Looped => CnameLoop
    case Broke(e) => LegFailed(e)
  }

  // ----- what a walk looks like -----

  /** Each leg but the last is a resolved owner whose answer holds a CNAME to the next. */
  ghost predicate LinkedLegs(oracle: Name -> Leg, t: uint16, legs: seq<Name>) {
    forall i :: 0 <= i < |legs| - 1 ==>
      && oracle(legs[i]).Resolved? && !Final(oracle(legs[i]).entry, legs[i], t)
      && PickTarget(oracle(legs[i]).entry.answer, legs[i]) == Some(legs[i + 1])
  }

  ghost predicate Distinct(legs: seq<Name>) {
    forall i, j :: 0 <= i < j < |legs| ==> legs[i] != legs[j]
  }

  /** How the walk ended, told by its last leg. */
  ghost predicate EndsRight(oracle: Name -> Leg, t: uint16, seen: set<Name>, budget: nat, cur: Name, w: Walk) {
    if w.legs == [] then cur in seen && w.end.Looped?
    else
      var last := w.legs[|w.legs| - 1];
      match w.end
      case Broke(e) => oracle(last) == Failed(e)
      case Stopped => oracle(last).Resolved? && Final(oracle(last).entry, last, t)
      case Looped =>
        && oracle(last).Resolved? && !Final(oracle(last).entry, last, t)
        && (|w.legs| == budget || PickTarget(oracle(last).entry.answer, last).value in seen + set n | n in w.legs)
  }

  ghost predicate WalkOK(oracle: Name -> Leg, t: uint16, cur: Name, seen: set<Name>, budget: nat, w: Walk) {
    && |w.legs| <= budget && (w.legs != [] ==> w.legs[0] == cur)
    && LinkedLegs(oracle, t, w.legs) && Distinct(w.legs) && (forall n :: n in w.legs ==> n !in seen)
    && EndsRight(oracle, t, seen, budget, cur, w)
  }

  lemma WalkStep(oracle: Name -> Leg, t: uint16, cur: Name, seen: set<Name>, budget: nat, next: Name, w: Walk)
    requires budget > 1 && cur !in seen && oracle(cur).Resolved? && !Final(oracle(cur).entry, cur, t)
    requires PickTarget(oracle(cur).entry.answer, cur) == Some(next)
    requires WalkOK(oracle, t, next, seen + {cur}, budget - 1, w)
    ensures WalkOK(oracle, t, cur, seen, budget, Walk([cur] + w.legs, w.end))
  {
    hide Final, PickTarget, LinkedLegs, EndsRight;
    var legs := [cur] + w.legs;
    assert forall i :: 0 < i < |legs| ==> legs[i] == w.legs[i - 1];
    LinkedStep(oracle, t, cur, next, w.legs);
    EndStep(oracle, t, cur, seen, budget, next, w);
  }

  lemma EndStep(oracle: Name -> Leg, t: uint16, cur: Name, seen: set<Name>, budget: nat, next: Name, w: Walk)
    requires budget > 1 && oracle(cur).Resolved? && !Final(oracle(cur).entry, cur, t)
    requires PickTarget(oracle(cur).entry.answer, cur) == Some(next)
    requires EndsRight(oracle, t, seen + {cur}, budget - 1, next, w)
    ensures EndsRight(oracle, t, seen, budget, cur, Walk([cur] + w.legs, w.end))
  {
    hide Final, PickTarget;
    var legs := [cur] + w.legs;
    assert seen + {cur} + (set n | n in w.legs) == seen + set n | n in legs;
    if w.legs == [] {
      assert legs == [cur];
    } else {
      assert legs[|legs| - 1] == w.legs[|w.legs| - 1];
    }
  }

  lemma LinkedStep(oracle: Name -> Leg, t: uint16, cur: Name, next: Name, legs: seq<Name>)
    requires oracle(cur).Resolved? && !Final(oracle(cur).entry, cur, t)
    requires PickTarget(oracle(cur).entry.answer, cur) == Some(next) && (legs != [] ==> legs[0] == next)
    requires LinkedLegs(oracle, t, legs)
    ensures LinkedLegs(oracle, t, [cur] + legs)
  {
    hide Final, PickTarget;
    var all := [cur] + legs;
    forall i | 0 <= i < |all| - 1
      ensures oracle(all[i]).Resolved? && !Final(oracle(all[i]).entry, all[i], t)
      ensures PickTarget(oracle(all[i]).entry.answer, all[i]) == Some(all[i + 1])
    {
      if i > 0 {
        assert all[i] == legs[i - 1] && all[i + 1] == legs[i];
      }
    }
  }

  /** At most `budget` resolutions, of distinct owners, each the CNAME target of the one before. */
  lemma {:induction false} ChaseOK(oracle: Name -> Leg, t: uint16, cur: Name, seen: set<Name>, budget: nat)
    requires budget > 0
    ensures WalkOK(oracle, t, cur, seen, budget, Chase(oracle, t, cur, seen, budget))
    decreases budget
  {
    hide WalkOK;
    if cur !in seen && oracle(cur).Resolved? && !Final(oracle(cur).entry, cur, t) && budget > 1 {
      var next := PickTarget(oracle(cur).entry.answer, cur).value;
      ChaseOK(oracle, t, next, seen + {cur}, budget - 1);
      WalkStep(oracle, t, cur, seen, budget, next, Chase(oracle, t, next, seen + {cur}, budget - 1));
    } else {
      ChaseEnds(oracle, t, cur, seen, budget);
    }
  }

  lemma ChaseEnds(oracle: Name -> Leg, t: uint16, cur: Name, seen: set<Name>, budget: nat)
    requires budget > 0
    requires cur in seen || oracle(cur).Failed? || Final(oracle(cur).entry, cur, t) || budget == 1
    ensures WalkOK(oracle, t, cur, seen, budget, Chase(oracle, t, cur, seen, budget))
  {
    hide Final, PickTarget;
    var w := Chase(oracle, t, cur, seen, budget);
    assert |w.legs| <= 1;
  }

  lemma StoppedResolved(oracle: Name -> Leg, t: uint16, cur: Name, seen: set<Name>, budget: nat)
    requires budget > 0
    ensures var w := Chase(oracle, t, cur, seen, budget);
            w.end.Stopped? ==> w.legs != [] && forall n :: n in w.legs ==> oracle(n).Resolved?
  {
    hide Chase, Final, PickTarget;
    ChaseOK(oracle, t, cur, seen, budget);
  }

  // ----- the loop -----

  method CollectOwn(recs: seq<Record>, n: Name) returns (own: seq<Record>)
    ensures own == RecordsAt(recs, n)
  {
    own := [];
    for i := 0 to |recs|
      invariant own == Filter(recs[..i], OwnedBy(n))
    {
      FilterPrefix(recs, i, OwnedBy(n));
      if recs[i].name == n {
        own := own + [recs[i]];
      }
    }
    assert recs[..|recs|] == recs;
  }

  method FindTarget(recs: seq<Record>, owner: Name) returns (r: Option<Name>)
    ensures r == PickTarget(recs, owner)
  {
    for i := 0 to |recs|
      invariant PickTarget(recs, owner) == PickTarget(recs[i..], owner)
    {
      assert recs[i..][1..] == recs[i + 1..];
      if recs[i].rdata.CnameData? && recs[i].name == owner {
        return Some(recs[i].rdata.target);
      }
    }
    return None;
  }

  /** One more leg joins the aggregate.  The first leg is recognised by an aggregate with neither
      answers nor authority. */
  method Join(aggregated: Entry, entry: Entry, own: seq<Record>) returns (r: Entry)
    ensures var first := aggregated.answer == [] && aggregated.authority == [];
            r == if first then entry.(answer := own) else
              aggregated.(answer := aggregated.answer + own,
                          rcode := if entry.rcode != RCODE_OK then entry.rcode else aggregated.rcode,
                          expiresAt := if entry.expiresAt < aggregated.expiresAt then entry.expiresAt else aggregated.expiresAt)
  {
    if aggregated.answer == [] && aggregated.authority == [] {
      r := entry.(answer := own);
    } else {
      r := aggregated.(answer := aggregated.answer + own);
      if entry.rcode != RCODE_OK {
        r := r.(rcode := entry.rcode);
      }
      if entry.expiresAt < r.expiresAt {
        r := r.(expiresAt := entry.expiresAt);
      }
    }
  }

  const NO_ENTRY: Entry := Entry([], [], [], RCODE_OK, false, false, 0)

  /** What the aggregate is after the legs so far: nothing yet, or their sum with an answer in it. */
  ghost predicate Sums(oracle: Name -> Leg, legs: seq<Name>, aggregated: Entry) {
    && AllResolved(oracle, legs)
    && if legs == [] then aggregated == NO_ENTRY else aggregated == Aggregate(oracle, legs)
  }

  lemma FirstSums(oracle: Name -> Leg, cur: Name)
    requires oracle(cur).Resolved?
    ensures Aggregate(oracle, [cur]) == oracle(cur).entry.(answer := RecordsAt(oracle(cur).entry.answer, cur))
  {
    assert [cur][..0] == [];
    assert OwnRecords(oracle, []) == [] && LastCode(oracle, []) == RCODE_OK;
    assert OwnRecords(oracle, [cur]) == [] + RecordsAt(oracle(cur).entry.answer, cur);
  }

  lemma JoinSums(oracle: Name -> Leg, legs: seq<Name>, cur: Name, aggregated: Entry, joined: Entry)
    requires Sums(oracle, legs, aggregated) && oracle(cur).Resolved? && (legs != [] ==> aggregated.answer != [])
    requires var entry := oracle(cur).entry;
             var own := RecordsAt(entry.answer, cur);
             joined == if aggregated.answer == [] && aggregated.authority == [] then entry.(answer := own) else
               aggregated.(answer := aggregated.answer + own,
                           rcode := if entry.rcode != RCODE_OK then entry.rcode else aggregated.rcode,
                           expiresAt := if entry.expiresAt < aggregated.expiresAt then entry.expiresAt else aggregated.expiresAt)
    ensures Sums(oracle, legs + [cur], joined)
  {
    hide RecordsAt;
    var all := legs + [cur];
    assert all[..|legs|] == legs && all[|legs|] == cur;
    assert AllResolved(oracle, all);
    if legs == [] {
      FirstSums(oracle, cur);
    } else {
      assert all[0] == legs[0];
    }
  }

  /** A leg that did not end the chase left a CNAME in the aggregate. */
  lemma OwnNotEmpty(entry: Entry, cur: Name)
    requires PickTarget(entry.answer, cur).Some?
    ensures RecordsAt(entry.answer, cur) != []
  {
    FilterMember(entry.answer, OwnedBy(cur));
    var c :| c in entry.answer && CnameAt(c, cur);
    assert c in RecordsAt(entry.answer, cur);
  }

  method FindType(recs: seq<Record>, owner: Name, t: uint16) returns (b: bool)
    ensures b <==> HasTypeAt(recs, owner, t)
  {
    for i := 0 to |recs|
      invariant !HasTypeAt(recs[..i], owner, t)
    {
      if recs[i].Type() == t && recs[i].name == owner {
        return true;
      }
      assert recs[..i + 1] == recs[..i] + [recs[i]];
    }
    assert recs[..|recs|] == recs;
    return false;
  }

  ghost function Prepend(legs: seq<Name>, w: Walk): Walk {
    Walk(legs + w.legs, w.end)
  }

  lemma PrependStep(oracle: Name -> Leg, t: uint16, legs: seq<Name>, cur: Name, seen: set<Name>, budget: nat)
    requires budget > 1 && cur !in seen && oracle(cur).Resolved? && !Final(oracle(cur).entry, cur, t)
    ensures var next := PickTarget(oracle(cur).entry.answer, cur).value;
            Prepend(legs, Chase(oracle, t, cur, seen, budget))
            == Prepend(legs + [cur], Chase(oracle, t, next, seen + {cur}, budget - 1))
  {
    var w := Chase(oracle, t, PickTarget(oracle(cur).entry.answer, cur).value, seen + {cur}, budget - 1);
    assert legs + ([cur] + w.legs) == legs + [cur] + w.legs;
  }

  /** One pass through the loop: the chase goes on, or this is its result. */
  method OneLeg(oracle: Name -> Leg, t: uint16, cur: Name, aggregated: Entry, ghost legs: seq<Name>)
    returns (next: Option<Name>, joined: Entry, error: Option<nat>)
    requires Sums(oracle, legs, aggregated) && (legs != [] ==> aggregated.answer != [])
    ensures error == if oracle(cur).Failed? then Some(oracle(cur).error) else None
    ensures error.None? ==> Sums(oracle, legs + [cur], joined)
    ensures error.None? ==> (next.None? <==> Final(oracle(cur).entry, cur, t))
    ensures error.None? && next.Some? ==> next == PickTarget(oracle(cur).entry.answer, cur) && joined.answer != []
  {
    hide Sums, RecordsAt;
    var leg := oracle(cur);
    if leg.Failed? {
      return None, aggregated, Some(leg.error);
    }
    error := None;
    var own := CollectOwn(leg.entry.answer, cur);
    joined := Join(aggregated, leg.entry, own);
    JoinSums(oracle, legs, cur, aggregated, joined);
    if t == TYPE_CNAME {
      next := None;
      return;
    }
    next := FindTarget(leg.entry.answer, cur);
    if next.Some? {
      OwnNotEmpty(leg.entry, cur);
      var has := FindType(leg.entry.answer, cur, t);
      if has {
        next := None;
      }
    }
  }

  method Follow(oracle: Name -> Leg, name: Name, t: uint16, maxCnames: int, depth: int, seen: set<Name>)
    returns (r: ChaseResult)
    ensures maxCnames <= depth ==> r == CnameLoop
    ensures maxCnames > depth ==>
              var w := Chase(oracle, t, name, seen, maxCnames - depth);
              (StoppedResolved(oracle, t, name, seen, maxCnames - depth); r == ResultOf(oracle, w))
  {
    hide Final, PickTarget, Aggregate;
    if depth >= maxCnames {
      return CnameLoop;
    }
    StoppedResolved(oracle, t, name, seen, maxCnames - depth);
    ghost var whole := Chase(oracle, t, name, seen, maxCnames - depth);
    var cur, visited, d, aggregated := name, seen, depth, NO_ENTRY;
    ghost var legs := [];
    assert Prepend([], whole) == whole;
    while true
      invariant d < maxCnames && Sums(oracle, legs, aggregated) && (legs != [] ==> aggregated.answer != [])
      invariant whole == Prepend(legs, Chase(oracle, t, cur, visited, maxCnames - d))
      decreases maxCnames - d
    {
      if cur in visited {
        return CnameLoop;
      }
      var next, joined, error := OneLeg(oracle, t, cur, aggregated, legs);
      if error.Some? {
        return LegFailed(error.value);
      }
      if next.None? {
        return Chased(joined);
      }
      d := d + 1;
      if d >= maxCnames {
        return CnameLoop;
      }
      PrependStep(oracle, t, legs, cur, visited, maxCnames - d + 1);
      legs := legs + [cur];
      visited := visited + {cur};
      cur, aggregated := next.value, joined;
    }
  }

  // ----- what a successful chase returns -----

  lemma {:induction false} OwnRecordsOwned(oracle: Name -> Leg, legs: seq<Name>, r: Record)
    requires forall n :: n in legs ==> oracle(n).Resolved?
    ensures r in OwnRecords(oracle, legs) <==> r.name in legs && r in oracle(r.name).entry.answer
  {
    if legs != [] {
      var init, last := legs[..|legs| - 1], legs[|legs| - 1];
      assert legs == init + [last];
      OwnRecordsOwned(oracle, init, r);
      FilterMember(oracle(last).entry.answer, OwnedBy(last));
    }
  }

  /** A chase that succeeds made at most its budget of resolutions, of distinct owners linked by
      CNAMEs, and every record it returns was found at one of them when that one was asked. */
  lemma ChaseMeaning(oracle: Name -> Leg, name: Name, t: uint16, seen: set<Name>, budget: nat, r: Record)
    requires budget > 0 && Chase(oracle, t, name, seen, budget).end.Stopped?
    ensures var w := Chase(oracle, t, name, seen, budget);
            && 0 < |w.legs| <= budget && w.legs[0] == name && AllResolved(oracle, w.legs)
            && Distinct(w.legs) && LinkedLegs(oracle, t, w.legs)
            && var e := Aggregate(oracle, w.legs);
            && (r in e.answer <==> r.name in w.legs && r in oracle(r.name).entry.answer)
            && (forall n :: n in w.legs ==> e.expiresAt <= oracle(n).entry.expiresAt)
            && (exists n :: n in w.legs && e.expiresAt == oracle(n).entry.expiresAt)
  {
    hide Chase, Final, PickTarget, OwnRecords, Earliest, LastCode;
    ChaseOK(oracle, t, name, seen, budget);
    StoppedResolved(oracle, t, name, seen, budget);
    OwnRecordsOwned(oracle, Chase(oracle, t, name, seen, budget).legs, r);
  }
}
