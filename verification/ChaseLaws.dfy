/** What a followed alias chain returns, in terms of what each leg answered. */
module ChaseLaws {
  import opened Names
  import opened Records
  import opened CnameChase

  function AliasAt(owner: Name): Record -> bool {
    (r: Record) => r.rdata.CnameData? && r.name == owner
  }

  /** The alias followed is the first CNAME of the owner. */
  lemma {:induction false} TargetExactly(recs: seq<Record>, owner: Name, i: nat)
    ensures FirstAt(recs, AliasAt(owner), i) ==> PickTarget(recs, owner) == Some(recs[i].rdata.target)
  {
    if recs != [] && !AliasAt(owner)(recs[0]) && i > 0 {
      FirstShifts(recs, AliasAt(owner), i - 1);
      TargetExactly(recs[1..], owner, i - 1);
    }
  }

  /** A leg is the last one exactly when CNAME was asked for, or the owner has no alias, or it has records
      of the type asked for. */
  lemma LastLegExactly(e: Entry, cur: Name, t: uint16)
    ensures Final(e, cur, t) <==>
              || t == TYPE_CNAME
              || (forall r :: r in e.answer && r.name == cur ==> !r.rdata.CnameData?)
              || exists r :: r in e.answer && r.name == cur && r.Type() == t
  {
    assert PickTarget(e.answer, cur).None? <==> forall r :: r in e.answer ==> !CnameAt(r, cur);
  }

  /** What each leg answered about itself. */
  ghost function OwnAnswers(oracle: Name -> Leg, legs: seq<Name>): seq<seq<Record>>
    requires AllResolved(oracle, legs)
  {
    seq(|legs|, i requires 0 <= i < |legs| => assert legs[i] in legs; Filter(oracle(legs[i]).entry.answer, OwnedBy(legs[i])))
  }

  lemma {:induction false} OwnRecordsExactly(oracle: Name -> Leg, legs: seq<Name>)
    requires AllResolved(oracle, legs)
    ensures OwnRecords(oracle, legs) == Flatten(OwnAnswers(oracle, legs))
  {
    if legs != [] {
      var init, last := legs[..|legs| - 1], legs[|legs| - 1];
      assert last in legs && forall n :: n in init ==> n in legs;
      OwnRecordsExactly(oracle, init);
      var own := Filter(oracle(last).entry.answer, OwnedBy(last));
      assert OwnAnswers(oracle, legs) == OwnAnswers(oracle, init) + [own];
      FlattenSnoc(OwnAnswers(oracle, init), own);
    }
  }

  /** The i-th leg is the last one with a code other than success. */
  ghost predicate LastFailing(oracle: Name -> Leg, legs: seq<Name>, i: nat) {
    && AllResolved(oracle, legs) && i < |legs| && legs[i] in legs && oracle(legs[i]).entry.rcode != 0
    && forall j :: i < j < |legs| ==> legs[j] in legs && oracle(legs[j]).entry.rcode == 0
  }

  lemma {:induction false} AllSucceeded(oracle: Name -> Leg, legs: seq<Name>)
    requires AllResolved(oracle, legs)
    ensures LastCode(oracle, legs) == 0 <==> forall n :: n in legs ==> oracle(n).entry.rcode == 0
  {
    if legs != [] {
      var init, last := legs[..|legs| - 1], legs[|legs| - 1];
      assert legs == init + [last];
      AllSucceeded(oracle, init);
    }
  }

  lemma {:induction false} LastCodeExactly(oracle: Name -> Leg, legs: seq<Name>, i: nat)
    requires LastFailing(oracle, legs, i)
    ensures LastCode(oracle, legs) == oracle(legs[i]).entry.rcode
    decreases |legs|
  {
    var init, last := legs[..|legs| - 1], legs[|legs| - 1];
    if i < |init| {
      assert legs[|legs| - 1] in legs && oracle(last).entry.rcode == 0;
      assert forall j :: 0 <= j < |init| ==> init[j] == legs[j] && init[j] in init;
      assert AllResolved(oracle, init);
      LastCodeExactly(oracle, init, i);
    }
  }

  /** A chase that ends returns what each visited owner answered about itself, leg by leg; the code of the
      last leg that failed; everything else from the first leg. */
  lemma ChaseExactly(oracle: Name -> Leg, name: Name, t: uint16, seen: set<Name>, budget: nat, i: nat)
    requires budget > 0 && Chase(oracle, t, name, seen, budget).end.Stopped?
    ensures var w := Chase(oracle, t, name, seen, budget);
            && w.legs != [] && AllResolved(oracle, w.legs) && w.legs[0] == name
            && var e, first := Aggregate(oracle, w.legs), oracle(name).entry;
            && e.answer == Flatten(OwnAnswers(oracle, w.legs))
            && (e.rcode == 0 <==> forall n :: n in w.legs ==> oracle(n).entry.rcode == 0)
            && (LastFailing(oracle, w.legs, i) ==> e.rcode == oracle(w.legs[i]).entry.rcode)
            && e.authority == first.authority && e.additional == first.additional && e.aa == first.aa && e.ad == first.ad
  {
    hide Chase, OwnRecords, LastCode, Final, PickTarget, OwnAnswers;
    ChaseOK(oracle, t, name, seen, budget);
    StoppedResolved(oracle, t, name, seen, budget);
    var w := Chase(oracle, t, name, seen, budget);
    OwnRecordsExactly(oracle, w.legs);
    AllSucceeded(oracle, w.legs);
    if LastFailing(oracle, w.legs, i) {
      LastCodeExactly(oracle, w.legs, i);
    }
  }
}
