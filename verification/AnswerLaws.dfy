/** The shape of every answer section: a chain of redirections from the query name, then the
    records asked for. */
module AnswerLaws {
  import opened Names
  import opened Records
  import opened Zones
  import opened Lookup
  import opened LookupLaws

  /** The records one redirection contributes, and the name it leads to. */
  datatype Link = Link(recs: seq<Record>, next: Name)

  function Prepend(prefix: seq<Label>, base: Name): Name {
    if prefix == [] then base else Sub(prefix[0], Prepend(prefix[1..], base))
  }

  /** `next` is `n` with the suffix `owner` exchanged for `target`, label for label. */
  ghost predicate SuffixReplaced(n: Name, owner: Name, target: Name, next: Name) {
    exists prefix: seq<Label> :: n == Prepend(prefix, owner) && next == Prepend(prefix, target)
  }

  lemma {:induction false} GraftReplaces(n: Name, owner: Name, target: Name)
    requires AtOrBelow(n, owner)
    ensures SuffixReplaced(n, owner, target, Graft(n, owner, target))
  {
    if n == owner {
      assert n == Prepend([], owner);
    } else {
      GraftReplaces(n.parent, owner, target);
      var prefix: seq<Label> :| n.parent == Prepend(prefix, owner) && Graft(n.parent, owner, target) == Prepend(prefix, target);
      assert ([n.head] + prefix)[1..] == prefix;
      assert n == Prepend([n.head] + prefix, owner);
    }
  }

  /** Prefixes are determined by what they lead to. */
  lemma {:induction false} PrependInjective(p: seq<Label>, q: seq<Label>, base: Name)
    requires Prepend(p, base) == Prepend(q, base)
    ensures p == q
  {
    PrependDepth(p, base);
    PrependDepth(q, base);
    if p != [] {
      PrependInjective(p[1..], q[1..], base);
      assert p == [p[0]] + p[1..] && q == [q[0]] + q[1..];
    }
  }

  lemma {:induction false} PrependDepth(p: seq<Label>, base: Name)
    ensures Depth(Prepend(p, base)) == |p| + Depth(base)
  {
    if p != [] {
      PrependDepth(p[1..], base);
    }
  }

  lemma ReplacedOnce(n: Name, owner: Name, target: Name, a: Name, b: Name)
    requires SuffixReplaced(n, owner, target, a) && SuffixReplaced(n, owner, target, b)
    ensures a == b
  {
    var p: seq<Label> :| n == Prepend(p, owner) && a == Prepend(p, target);
    var q: seq<Label> :| n == Prepend(q, owner) && b == Prepend(q, target);
    PrependInjective(p, q, owner);
  }

  /** An alias among the records of an owner that has nothing of the asked type. */
  ghost predicate Aliased(bucket: seq<Record>, t: uint16) {
    t != TYPE_CNAME && Filter(bucket, OfType(t)) == [] && FirstCname(bucket).Some?
  }

  /** Records are owned at the name or below it. */
  ghost predicate Named(origin: Name, recs: seq<Record>, n: Name) {
    OwnedAt(recs, n) != [] || Exists(origin, recs, n)
  }

  /** The longest existing ancestor. */
  ghost predicate Encloses(origin: Name, recs: seq<Record>, n: Name, e: Name) {
    n.Sub? && Deepest(n.parent, ExistsIn(origin, recs), e)
  }

  /** The first CNAME stored at the current name, where nothing of the asked type is. */
  ghost predicate CnameLink(recs: seq<Record>, n: Name, t: uint16, l: Link) {
    Aliased(OwnedAt(recs, n), t) && FirstCname(OwnedAt(recs, n)).value.rdata == CnameData(l.next)
    && l.recs == [FirstCname(OwnedAt(recs, n)).value]
  }

  /** Nothing at or below the name: the nearest DNAME above, and the CNAME it synthesises. */
  ghost predicate DnameLink(origin: Name, recs: seq<Record>, n: Name, l: Link) {
    && !Named(origin, recs, n) && n.Sub? && Representable(l.next)
    && exists d :: Deepest(n.parent, HasDname(recs), d) && DnameLinkAt(recs, n, d, l)
  }

  ghost predicate DnameLinkAt(recs: seq<Record>, n: Name, d: Name, l: Link)
    requires HasDname(recs)(d)
  {
    && SuffixReplaced(n, d, DnameOf(recs, d).rdata.target, l.next)
    && l.recs == [DnameOf(recs, d), Record(n, CLASS_IN, DnameOf(recs, d).ttl, CnameData(l.next))]
  }

  /** Nor a DNAME that redirects: the wildcard CNAME of the longest existing ancestor, under the
      current name. */
  ghost predicate WildLink(origin: Name, recs: seq<Record>, n: Name, t: uint16, l: Link) {
    && !Named(origin, recs, n) && (forall d :: !RedirectsVia(recs, n, d))
    && exists e :: Encloses(origin, recs, n, e) && WildLinkAt(OwnedAt(recs, Wildcard(e)), n, t, l)
  }

  ghost predicate WildLinkAt(bucket: seq<Record>, n: Name, t: uint16, l: Link) {
    Aliased(bucket, t) && FirstCname(bucket).value.rdata == CnameData(l.next) && l.recs == [FirstCname(bucket).value.(name := n)]
  }

  ghost predicate LinkOK(origin: Name, recs: seq<Record>, n: Name, t: uint16, l: Link) {
    CnameLink(recs, n, t, l) || DnameLink(origin, recs, n, l) || WildLink(origin, recs, n, t, l)
  }

  /** Links leading from `n` to `last`, each valid at the name it starts from. */
  ghost predicate Linked(valid: (Name, Link) -> bool, n: Name, links: seq<Link>, last: Name)
    decreases |links|
  {
    if links == [] then n == last
    else valid(n, links[0]) && Linked(valid, links[0].next, links[1..], last)
  }

  function LinkRecords(links: seq<Link>): seq<Record> {
    if links == [] then [] else links[0].recs + LinkRecords(links[1..])
  }

  /** The records closing an answer, where no alias leads on: all those of the asked type at the last
      name; if nothing is at or below it, those of the wildcard of its longest existing ancestor,
      renamed; otherwise none. */
  ghost predicate TailOK(origin: Name, recs: seq<Record>, last: Name, t: uint16, tail: seq<Record>) {
    if Named(origin, recs, last) then
      !Aliased(OwnedAt(recs, last), t) && tail == Filter(OwnedAt(recs, last), OfType(t))
    else
      && (forall d :: !RedirectsVia(recs, last, d))
      && (forall e :: Encloses(origin, recs, last, e) ==> WildTail(OwnedAt(recs, Wildcard(e)), last, t, tail))
      && ((forall e :: !Encloses(origin, recs, last, e)) ==> tail == [])
  }

  ghost predicate WildTail(bucket: seq<Record>, last: Name, t: uint16, tail: seq<Record>) {
    !Aliased(bucket, t) && tail == Rewritten(Filter(bucket, OfType(t)), last)
  }

  // ----- one name -----

  /** What an outcome must look like: a valid link, or a valid closing section. */
  ghost predicate OutcomeOK(origin: Name, recs: seq<Record>, n: Name, t: uint16, out: Outcome) {
    if out.Chase? then LinkOK(origin, recs, n, t, Link(out.recs, out.next))
    else TailOK(origin, recs, n, t, TailOf(out))
  }

  lemma RedirectIsDname(origin: Name, recs: seq<Record>, n: Name, d: Name)
    requires RedirectsVia(recs, n, d) && !Named(origin, recs, n)
    ensures
      var out := RedirectChase(n, RedirectOf(recs, n, d));
      DnameLink(origin, recs, n, Link(out.recs, out.next))
  {
    hide Named, FirstDname;
    assert AtOrBelow(n, d);
    GraftReplaces(n, d, DnameOf(recs, d).rdata.target);
    var out := RedirectChase(n, RedirectOf(recs, n, d));
    assert DnameLinkAt(recs, n, d, Link(out.recs, out.next));
  }

  lemma ExactOutcomeOK(origin: Name, recs: seq<Record>, n: Name, t: uint16)
    requires OwnedAt(recs, n) != []
    ensures OutcomeOK(origin, recs, n, t, FromMatch(MatchOf(OwnedAt(recs, n), t), n, false))
  {
    hide Filter;
  }

  lemma NothingOfType(t: uint16)
    ensures Filter([], OfType(t)) == []
  {
  }

  lemma EmptyOutcomeOK(origin: Name, recs: seq<Record>, n: Name, t: uint16)
    requires OwnedAt(recs, n) == [] && Exists(origin, recs, n)
    ensures OutcomeOK(origin, recs, n, t, NoData)
  {
    hide Exists, OwnedAt;
    NothingOfType(t);
  }

  lemma EnclosesOnce(origin: Name, recs: seq<Record>, n: Name, a: Name, b: Name)
    requires Encloses(origin, recs, n, a) && Encloses(origin, recs, n, b)
    ensures a == b
  {
    hide Deepest;
    DeepestUnique(n.parent, ExistsIn(origin, recs), a, b);
  }

  lemma WildOutcomeOK(origin: Name, recs: seq<Record>, n: Name, t: uint16, e: Name)
    requires !Named(origin, recs, n) && (forall d :: !RedirectsVia(recs, n, d)) && Encloses(origin, recs, n, e)
    ensures OutcomeOK(origin, recs, n, t, FromMatch(MatchOf(OwnedAt(recs, Wildcard(e)), t), n, true))
  {
    hide Filter, Named, RedirectsVia, Encloses, FirstCname, OwnedAt;
    var bucket := OwnedAt(recs, Wildcard(e));
    var out := FromMatch(MatchOf(bucket, t), n, true);
    if out.Chase? {
      assert WildLinkAt(bucket, n, t, Link(out.recs, out.next));
    } else {
      assert WildTail(bucket, n, t, TailOf(out));
      forall x | Encloses(origin, recs, n, x)
        ensures x == e
      {
        EnclosesOnce(origin, recs, n, x, e);
      }
    }
  }

  lemma NoNameOutcomeOK(origin: Name, recs: seq<Record>, n: Name, t: uint16)
    requires !Named(origin, recs, n) && (forall d :: !RedirectsVia(recs, n, d)) && (forall e :: !WildVia(origin, recs, n, e))
    ensures OutcomeOK(origin, recs, n, t, NoName)
  {
    hide Filter, Named, RedirectsVia, OwnedAt, Deepest;
    NothingOfType(t);
    forall e | Encloses(origin, recs, n, e)
      ensures WildTail(OwnedAt(recs, Wildcard(e)), n, t, [])
    {
      assert !WildVia(origin, recs, n, e);
    }
  }

  lemma FlatOutcomeOK(origin: Name, recs: seq<Record>, n: Name, t: uint16, out: Outcome)
    requires FlatOutcome(origin, recs, n, t, out)
    ensures OutcomeOK(origin, recs, n, t, out)
  {
    hide OutcomeOK, MatchOf, FromMatch, OwnedAt, Exists, Representable, Graft, FirstDname;
    if OwnedAt(recs, n) != [] {
      ExactOutcomeOK(origin, recs, n, t);
    } else if Exists(origin, recs, n) {
      EmptyOutcomeOK(origin, recs, n, t);
    } else if exists d :: RedirectsVia(recs, n, d) {
      var d :| RedirectsVia(recs, n, d) && out == RedirectChase(n, RedirectOf(recs, n, d));
      RedirectIsDname(origin, recs, n, d);
      DnameOutcomeOK(origin, recs, n, t, out);
    } else if exists e :: WildVia(origin, recs, n, e) {
      var e :| WildVia(origin, recs, n, e) && out == FromMatch(MatchOf(OwnedAt(recs, Wildcard(e)), t), n, true);
      WildOutcomeOK(origin, recs, n, t, e);
    } else {
      NoNameOutcomeOK(origin, recs, n, t);
    }
  }

  lemma DnameOutcomeOK(origin: Name, recs: seq<Record>, n: Name, t: uint16, out: Outcome)
    requires out.Chase? && DnameLink(origin, recs, n, Link(out.recs, out.next))
    ensures OutcomeOK(origin, recs, n, t, out)
  {
  }

  // ----- a name has one link or one closing section -----

  lemma DnameLinkOnce(origin: Name, recs: seq<Record>, n: Name, l: Link, m: Link)
    requires DnameLink(origin, recs, n, l) && DnameLink(origin, recs, n, m)
    ensures l == m
  {
    hide Named, SuffixReplaced, FirstDname;
    var d :| Deepest(n.parent, HasDname(recs), d) && DnameLinkAt(recs, n, d, l);
    var e :| Deepest(n.parent, HasDname(recs), e) && DnameLinkAt(recs, n, e, m);
    DeepestUnique(n.parent, HasDname(recs), d, e);
    ReplacedOnce(n, d, DnameOf(recs, d).rdata.target, l.next, m.next);
  }

  lemma DnameLinkRedirects(origin: Name, recs: seq<Record>, n: Name, l: Link)
    requires DnameLink(origin, recs, n, l)
    ensures exists d :: RedirectsVia(recs, n, d)
  {
    hide Named, SuffixReplaced, FirstDname;
    var d :| Deepest(n.parent, HasDname(recs), d) && DnameLinkAt(recs, n, d, l);
    assert AtOrBelow(n, d);
    GraftReplaces(n, d, DnameOf(recs, d).rdata.target);
    ReplacedOnce(n, d, DnameOf(recs, d).rdata.target, l.next, Graft(n, d, DnameOf(recs, d).rdata.target));
    assert RedirectsVia(recs, n, d);
  }

  lemma WildLinkOnce(origin: Name, recs: seq<Record>, n: Name, t: uint16, l: Link, m: Link)
    requires WildLink(origin, recs, n, t, l) && WildLink(origin, recs, n, t, m)
    ensures l == m
  {
    hide Named, Encloses, RedirectsVia, Aliased, OwnedAt;
    var d :| Encloses(origin, recs, n, d) && WildLinkAt(OwnedAt(recs, Wildcard(d)), n, t, l);
    var e :| Encloses(origin, recs, n, e) && WildLinkAt(OwnedAt(recs, Wildcard(e)), n, t, m);
    EnclosesOnce(origin, recs, n, d, e);
  }

  lemma AliasedNamed(origin: Name, recs: seq<Record>, n: Name, t: uint16)
    requires Aliased(OwnedAt(recs, n), t)
    ensures Named(origin, recs, n)
  {
  }

  lemma LinkOnce(origin: Name, recs: seq<Record>, n: Name, t: uint16, l: Link, m: Link)
    requires LinkOK(origin, recs, n, t, l) && LinkOK(origin, recs, n, t, m)
    ensures l == m
  {
    hide Named, Encloses, RedirectsVia, Aliased, OwnedAt, Deepest;
    if Aliased(OwnedAt(recs, n), t) {
      AliasedNamed(origin, recs, n, t);
    }
    if DnameLink(origin, recs, n, l) {
      DnameLinkRedirects(origin, recs, n, l);
    }
    if DnameLink(origin, recs, n, m) {
      DnameLinkRedirects(origin, recs, n, m);
      if DnameLink(origin, recs, n, l) {
        DnameLinkOnce(origin, recs, n, l, m);
      }
    }
    if WildLink(origin, recs, n, t, l) && WildLink(origin, recs, n, t, m) {
      WildLinkOnce(origin, recs, n, t, l, m);
    }
  }

  lemma LinkOrTail(origin: Name, recs: seq<Record>, n: Name, t: uint16, l: Link, tail: seq<Record>)
    requires LinkOK(origin, recs, n, t, l)
    ensures !TailOK(origin, recs, n, t, tail)
  {
    hide Named, Encloses, RedirectsVia, Aliased, OwnedAt, Deepest, Rewritten;
    if Aliased(OwnedAt(recs, n), t) {
      AliasedNamed(origin, recs, n, t);
    }
    if DnameLink(origin, recs, n, l) {
      DnameLinkRedirects(origin, recs, n, l);
    }
  }

  lemma TailOnce(origin: Name, recs: seq<Record>, n: Name, t: uint16, a: seq<Record>, b: seq<Record>)
    requires TailOK(origin, recs, n, t, a) && TailOK(origin, recs, n, t, b)
    ensures a == b
  {
    hide Named, Encloses, RedirectsVia, Aliased, OwnedAt;
    if !Named(origin, recs, n) && exists e :: Encloses(origin, recs, n, e) {
      var e :| Encloses(origin, recs, n, e);
      assert WildTail(OwnedAt(recs, Wildcard(e)), n, t, a) && WildTail(OwnedAt(recs, Wildcard(e)), n, t, b);
    }
  }

  // ----- the chase -----

  ghost function ValidLink(origin: Name, recs: seq<Record>, t: uint16): (Name, Link) -> bool {
    (n: Name, l: Link) => LinkOK(origin, recs, n, t, l)
  }

  ghost function ValidTail(origin: Name, recs: seq<Record>, t: uint16): (Name, seq<Record>) -> bool {
    (n: Name, tail: seq<Record>) => TailOK(origin, recs, n, t, tail)
  }

  function TailOf(out: Outcome): seq<Record> {
    if out.Answer? then out.recs else []
  }

  /** Every outcome is a valid link or a valid closing section. */
  ghost predicate Obeys(at: Name -> Outcome, valid: (Name, Link) -> bool, closes: (Name, seq<Record>) -> bool) {
    forall m :: if at(m).Chase? then valid(m, Link(at(m).recs, at(m).next)) else closes(m, TailOf(at(m)))
  }

  /** The chase, for any rule of outcomes: it follows valid links, at most as many as are left,
      and stops with SERVFAIL exactly when it runs out of them. */
  lemma {:induction false} ChaseIsLinked(
      at: Name -> Outcome, soa: Record, valid: (Name, Link) -> bool, closes: (Name, seq<Record>) -> bool,
      n: Name, chain: nat, answer: seq<Record>)
    returns (links: seq<Link>, last: Name, tail: seq<Record>)
    requires chain <= MAX_CHAIN && (chain == 0 ==> answer == [])
    requires Obeys(at, valid, closes)
    ensures Linked(valid, n, links, last)
    ensures |links| <= MAX_CHAIN - chain
    ensures
      var res := ChaseFrom(at, soa, n, chain, answer);
      && res.answer == answer + LinkRecords(links) + tail
      && (res.rcode == ServFail <==> |links| == MAX_CHAIN - chain)
      && (if res.rcode == ServFail then tail == [] else closes(last, tail))
    decreases MAX_CHAIN - chain
  {
    links, last, tail := [], n, [];
    if chain < MAX_CHAIN {
      var out := at(n);
      if out.Chase? {
        var l := Link(out.recs, out.next);
        links, last, tail := ChaseIsLinked(at, soa, valid, closes, out.next, chain + 1, answer + out.recs);
        LinkRecordsCons(l, links, answer, tail);
        assert ([l] + links)[1..] == links;
        links := [l] + links;
      } else {
        tail := TailOf(out);
      }
    }
  }

  lemma LinkRecordsCons(l: Link, links: seq<Link>, answer: seq<Record>, tail: seq<Record>)
    ensures answer + LinkRecords([l] + links) + tail == (answer + l.recs) + LinkRecords(links) + tail
  {
    assert ([l] + links)[1..] == links;
  }

  lemma OutcomeIsValid(z: Zone, recs: seq<Record>, t: uint16, m: Name)
    requires ZoneOK(z) && Lists(z, recs) && OwnersFit(recs)
    ensures
      var out := Outcomes(z, t)(m);
      if out.Chase? then ValidLink(z.origin, recs, t)(m, Link(out.recs, out.next)) else ValidTail(z.origin, recs, t)(m, TailOf(out))
  {
    AtIsFlat(z, recs, m, t);
    FlatOutcomeOK(z.origin, recs, m, t, At(z, m, t));
  }

  lemma OutcomesObey(z: Zone, recs: seq<Record>, t: uint16)
    requires ZoneOK(z) && Lists(z, recs) && OwnersFit(recs)
    ensures Obeys(Outcomes(z, t), ValidLink(z.origin, recs, t), ValidTail(z.origin, recs, t))
  {
    forall m
      ensures
        var out := Outcomes(z, t)(m);
        if out.Chase? then ValidLink(z.origin, recs, t)(m, Link(out.recs, out.next)) else ValidTail(z.origin, recs, t)(m, TailOf(out))
    {
      OutcomeIsValid(z, recs, t, m);
    }
  }

  lemma AuthoritativeIsChase(z: Zone, q: Name, t: uint16)
    ensures LookupOf(z, q, t).aa ==> LookupOf(z, q, t) == ChaseFrom(Outcomes(z, t), z.soaRec, q, 0, [])
  {
  }

  /** `res` is closed by `tail` after following `links` from the query name. */
  ghost predicate LinkedAnswer(
      valid: (Name, Link) -> bool, closes: (Name, seq<Record>) -> bool,
      q: Name, res: Response, links: seq<Link>, last: Name, tail: seq<Record>)
  {
    && Linked(valid, q, links, last) && |links| <= MAX_CHAIN
    && res.answer == LinkRecords(links) + tail
    && (res.rcode == ServFail <==> |links| == MAX_CHAIN)
    && if res.rcode == ServFail then tail == [] else closes(last, tail)
  }

  lemma ChaseIsLinkedAnswer(
      at: Name -> Outcome, soa: Record, valid: (Name, Link) -> bool, closes: (Name, seq<Record>) -> bool, q: Name)
    returns (links: seq<Link>, last: Name, tail: seq<Record>)
    requires Obeys(at, valid, closes)
    ensures LinkedAnswer(valid, closes, q, ChaseFrom(at, soa, q, 0, []), links, last, tail)
  {
    links, last, tail := ChaseIsLinked(at, soa, valid, closes, q, 0, []);
    assert [] + LinkRecords(links) + tail == LinkRecords(links) + tail;
  }

  /** Every non-referral answer is a linked chain from the query name, of at most eight links,
      closed by the records asked for; SERVFAIL exactly when all eight links are used up. */
  lemma AnswerIsLinkedChain(z: Zone, recs: seq<Record>, q: Name, t: uint16, res: Response)
    returns (links: seq<Link>, last: Name, tail: seq<Record>)
    requires ZoneOK(z) && Lists(z, recs) && OwnersFit(recs)
    requires res == LookupOf(z, q, t) && res.aa
    ensures LinkedAnswer(ValidLink(z.origin, recs, t), ValidTail(z.origin, recs, t), q, res, links, last, tail)
  {
    AuthoritativeIsChase(z, q, t);
    OutcomesObey(z, recs, t);
    links, last, tail := ChaseIsLinkedAnswer(Outcomes(z, t), z.soaRec, ValidLink(z.origin, recs, t), ValidTail(z.origin, recs, t), q);
  }

  // ----- the chain determines the answer -----

  /** A name has at most one link, at most one closing section, and not both. */
  ghost predicate Decided(valid: (Name, Link) -> bool, closes: (Name, seq<Record>) -> bool) {
    && (forall n, l, m :: valid(n, l) && valid(n, m) ==> l == m)
    && (forall n, a, b :: closes(n, a) && closes(n, b) ==> a == b)
    && forall n, l, a :: valid(n, l) ==> !closes(n, a)
  }

  lemma LinksDecided(origin: Name, recs: seq<Record>, t: uint16)
    ensures Decided(ValidLink(origin, recs, t), ValidTail(origin, recs, t))
  {
    hide LinkOK, TailOK;
    forall n, l, m | LinkOK(origin, recs, n, t, l) && LinkOK(origin, recs, n, t, m)
      ensures l == m
    {
      LinkOnce(origin, recs, n, t, l, m);
    }
    forall n, a, b | TailOK(origin, recs, n, t, a) && TailOK(origin, recs, n, t, b)
      ensures a == b
    {
      TailOnce(origin, recs, n, t, a, b);
    }
    forall n, l, a | LinkOK(origin, recs, n, t, l)
      ensures !TailOK(origin, recs, n, t, a)
    {
      LinkOrTail(origin, recs, n, t, l, a);
    }
  }

  /** Links that are closed, or use up what is left. */
  ghost predicate Complete(
      valid: (Name, Link) -> bool, closes: (Name, seq<Record>) -> bool,
      n: Name, left: nat, links: seq<Link>, last: Name, tail: seq<Record>)
  {
    && Linked(valid, n, links, last) && |links| <= left
    && if |links| == left then tail == [] else closes(last, tail)
  }

  lemma {:induction false} CompleteOnce(
      valid: (Name, Link) -> bool, closes: (Name, seq<Record>) -> bool, n: Name, left: nat,
      links: seq<Link>, last: Name, tail: seq<Record>, others: seq<Link>, end: Name, rest: seq<Record>)
    requires Decided(valid, closes)
    requires Complete(valid, closes, n, left, links, last, tail) && Complete(valid, closes, n, left, others, end, rest)
    ensures links == others && last == end && tail == rest
    decreases left
  {
    if links != [] && others != [] {
      assert links[0] == others[0];
      CompleteOnce(valid, closes, links[0].next, left - 1, links[1..], last, tail, others[1..], end, rest);
      assert links == [links[0]] + links[1..] && others == [others[0]] + others[1..];
    }
  }

  /** The record list leaves no choice: whatever chain describes a response of a query, the answer
      section is that chain's, and all chains are the same. */
  lemma ChainUnique(
      origin: Name, recs: seq<Record>, q: Name, t: uint16, res: Response, links: seq<Link>, last: Name, tail: seq<Record>,
      other: Response, others: seq<Link>, end: Name, rest: seq<Record>)
    requires LinkedAnswer(ValidLink(origin, recs, t), ValidTail(origin, recs, t), q, res, links, last, tail)
    requires LinkedAnswer(ValidLink(origin, recs, t), ValidTail(origin, recs, t), q, other, others, end, rest)
    ensures links == others && last == end && tail == rest
    ensures res.answer == other.answer && (res.rcode == ServFail <==> other.rcode == ServFail)
  {
    hide Decided, Linked, ValidLink, ValidTail;
    var valid, closes := ValidLink(origin, recs, t), ValidTail(origin, recs, t);
    LinksDecided(origin, recs, t);
    CompleteOnce(valid, closes, q, MAX_CHAIN, links, last, tail, others, end, rest);
  }

  // ----- the whole response -----

  lemma {:induction false} ChaseCodes(at: Name -> Outcome, soa: Record, n: Name, chain: nat, answer: seq<Record>)
    requires chain <= MAX_CHAIN
    ensures ChaseFrom(at, soa, n, chain, answer).rcode in {NoError, NXDomain, ServFail}
    decreases MAX_CHAIN - chain
  {
    if chain < MAX_CHAIN && at(n).Chase? {
      ChaseCodes(at, soa, at(n).next, chain + 1, answer + at(n).recs);
    }
  }

  /** Nothing at or below the name, no DNAME that redirects it, no wildcard that covers it. */
  ghost predicate Denied(origin: Name, recs: seq<Record>, n: Name) {
    && !Named(origin, recs, n) && (forall d :: !RedirectsVia(recs, n, d)) && forall e :: !WildVia(origin, recs, n, e)
  }

  lemma AnswersHold(z: Zone, n: Name, t: uint16)
    ensures At(z, n, t).Answer? ==> At(z, n, t).recs != []
  {
    hide Filter, RedirectAbove, WildcardBucket;
  }

  /** The first name has no answer exactly when the chain has neither links nor records. */
  lemma FirstName(z: Zone, recs: seq<Record>, q: Name, t: uint16, links: seq<Link>, last: Name, tail: seq<Record>)
    requires ZoneOK(z) && Lists(z, recs) && OwnersFit(recs)
    requires Complete(ValidLink(z.origin, recs, t), ValidTail(z.origin, recs, t), q, MAX_CHAIN, links, last, tail)
    ensures At(z, q, t).NoData? || At(z, q, t).NoName? <==> links == [] && tail == []
    ensures At(z, q, t).NoName? <==> Denied(z.origin, recs, q)
  {
    hide LinkOK, TailOK, At, Exists, RedirectsVia, WildVia, ZoneOK, Lists, OwnersFit;
    var out := At(z, q, t);
    AtIsFlat(z, recs, q, t);
    FlatOutcomeOK(z.origin, recs, q, t, out);
    ExactlyNoName(z.origin, recs, q, t, out);
    AnswersHold(z, q, t);
    if out.Chase? {
      LinkOrTail(z.origin, recs, q, t, Link(out.recs, out.next), tail);
    } else if links != [] {
      LinkOrTail(z.origin, recs, q, t, links[0], TailOf(out));
    } else {
      TailOnce(z.origin, recs, q, t, tail, TailOf(out));
    }
  }

  /** Where no cut lies on the path, the record list determines the whole response: the records of the
      chain, the SOA exactly when it has none, SERVFAIL exactly when it uses up eight links, NXDOMAIN
      exactly when the first name is denied, and NOERROR otherwise. */
  lemma ResponseExactly(z: Zone, recs: seq<Record>, q: Name, t: uint16, links: seq<Link>, last: Name, tail: seq<Record>)
    requires ZoneOK(z) && Lists(z, recs) && OwnersFit(recs) && AtOrBelow(q, z.origin)
    requires forall c :: AtOrBelow(q, c) ==> !NsCut(z.origin, recs)(c)
    requires Complete(ValidLink(z.origin, recs, t), ValidTail(z.origin, recs, t), q, MAX_CHAIN, links, last, tail)
    ensures LookupOf(z, q, t) ==
            Response(LinkRecords(links) + tail,
                     if links == [] && tail == [] then [z.soaRec] else [],
                     [],
                     if |links| == MAX_CHAIN then ServFail else if Denied(z.origin, recs, q) then NXDomain else NoError,
                     true)
  {
    hide At, ChaseFrom, Linked, Denied, ValidLink, ValidTail, Complete, NsCut, AtOrBelow, ZoneOK, Lists, OwnersFit, Delegation;
    DelegationIsNearestCut(z, recs, q);
    var res := LookupOf(z, q, t);
    var at := Outcomes(z, t);
    ChaseAuthority(at, z.soaRec, q, 0, []);
    ChaseCodes(at, z.soaRec, q, 0, []);
    DeniedOnlyAtStart(at, z.soaRec, q, 0, []);
    FirstName(z, recs, q, t, links, last, tail);
    var others, end, rest := AnswerIsLinkedChain(z, recs, q, t, res);
    LinkedIsComplete(ValidLink(z.origin, recs, t), ValidTail(z.origin, recs, t), q, res, others, end, rest);
    LinksDecided(z.origin, recs, t);
    CompleteOnce(ValidLink(z.origin, recs, t), ValidTail(z.origin, recs, t), q, MAX_CHAIN, links, last, tail, others, end, rest);
  }

  lemma LinkedIsComplete(
      valid: (Name, Link) -> bool, closes: (Name, seq<Record>) -> bool,
      q: Name, res: Response, links: seq<Link>, last: Name, tail: seq<Record>)
    requires LinkedAnswer(valid, closes, q, res, links, last, tail)
    ensures Complete(valid, closes, q, MAX_CHAIN, links, last, tail)
  {
    hide Linked;
  }
}
