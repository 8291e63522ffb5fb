/** What sharing exchanges promises in every interleaving. */
module SingleFlightLaws {
  import opened Names
  import opened Keys
  import opened SingleFlight

  function Start<Q, R>(): State<Q, R> {
    State(map[], [], 0, map[])
  }

  ghost predicate IsRun<Q(!new), R(!new)>(cfg: Config<Q>, steps: seq<Step<Q, R>>, states: seq<State<Q, R>>) {
    && |states| == |steps| + 1 && states[0] == Start()
    && forall i :: 0 <= i < |steps| ==> Enabled(states[i], steps[i]) && states[i + 1] == Next(cfg, states[i], steps[i])
  }

  lemma StartInv<Q(!new), R(!new)>(cfg: Config<Q>)
    ensures Inv<Q, R>(cfg, Start())
  {
  }

  lemma {:induction false} RunInv<Q(!new), R(!new)>(cfg: Config<Q>, steps: seq<Step<Q, R>>, states: seq<State<Q, R>>, i: nat)
    requires IsRun(cfg, steps, states) && i <= |steps|
    ensures Inv(cfg, states[i])
  {
    hide Inv, Next, Enabled;
    if i == 0 {
      StartInv<Q, R>(cfg);
    } else {
      RunInv(cfg, steps, states, i - 1);
      InvStep(cfg, states[i - 1], steps[i - 1]);
    }
  }

  /** At most one exchange is outstanding per key. */
  lemma OneExchange<Q(!new), R(!new)>(
    cfg: Config<Q>, steps: seq<Step<Q, R>>, states: seq<State<Q, R>>, i: nat, c: nat, d: nat)
    requires IsRun(cfg, steps, states) && i <= |steps|
    requires InPhase(states[i], c, Exchanging) && InPhase(states[i], d, Exchanging)
    requires cfg.key(states[i].calls[c].question) == cfg.key(states[i].calls[d].question)
    ensures c == d
  {
    hide Next, Enabled, SlotsOK, WaitersOK;
    RunInv(cfg, steps, states, i);
    assert CallOK(cfg, states[i], c) && CallOK(cfg, states[i], d);
  }

  /** The slots held are the goroutines that have not given theirs back, and never too many; a
      goroutine giving one back never finds the semaphore empty. */
  lemma SlotsExact<Q(!new), R(!new)>(cfg: Config<Q>, steps: seq<Step<Q, R>>, states: seq<State<Q, R>>, i: nat)
    requires IsRun(cfg, steps, states) && i <= |steps| && cfg.cap.Some?
    ensures states[i].held == Holding(states[i].calls) <= cfg.cap.value
    ensures i < |steps| && steps[i].Release? ==> states[i].held > 0
  {
    hide Next, Enabled, CallsOK, WaitersOK, Holding;
    RunInv(cfg, steps, states, i);
    if i < |steps| {
      SlotsStep(cfg, states[i], steps[i]);
    }
  }

  /** A goroutine deletes its own published call. */
  lemma DeletesOwn<Q(!new), R(!new)>(cfg: Config<Q>, steps: seq<Step<Q, R>>, states: seq<State<Q, R>>, i: nat)
    requires IsRun(cfg, steps, states) && i < |steps| && steps[i].Delete?
    ensures var s, c := states[i], steps[i].call;
            && c < |s.calls|
            && var k := cfg.key(s.calls[c].question);
            k in s.inflight && s.inflight[k] == c && states[i + 1].inflight == s.inflight - {k}
  {
    hide CallsOK, WaitersOK, SlotsOK;
    RunInv(cfg, steps, states, i);
    DeleteCalls(cfg, states[i], steps[i].call);
  }

  // ----- the life of a call -----

  function Rank(p: Phase): nat {
    match p case Exchanging => 0 case Resulted => 1 case Deleted => 2 case Released => 3 case Closed => 4
  }

  /** A call exists and has gone at least this far. */
  ghost predicate Reached<Q, R>(s: State<Q, R>, c: nat, rank: nat) {
    c < |s.calls| && Rank(s.calls[c].phase) >= rank
  }

  lemma ReachedStep<Q(!new), R(!new)>(cfg: Config<Q>, s: State<Q, R>, step: Step<Q, R>, c: nat, rank: nat)
    requires Enabled(s, step) && Reached(s, c, rank)
    ensures Reached(Next(cfg, s, step), c, rank)
  {
  }

  lemma {:induction false} ReachedStays<Q(!new), R(!new)>(
    cfg: Config<Q>, steps: seq<Step<Q, R>>, states: seq<State<Q, R>>, i: nat, j: nat, c: nat, rank: nat)
    requires IsRun(cfg, steps, states) && i <= j <= |steps| && Reached(states[i], c, rank)
    ensures Reached(states[j], c, rank)
    decreases j - i
  {
    hide Next, Enabled, Reached;
    if i < j {
      ReachedStays(cfg, steps, states, i, j - 1, c, rank);
      ReachedStep(cfg, states[j - 1], steps[j - 1], c, rank);
    }
  }

  /** `done` is closed at most once. */
  lemma ClosedOnce<Q(!new), R(!new)>(
    cfg: Config<Q>, steps: seq<Step<Q, R>>, states: seq<State<Q, R>>, i: nat, j: nat, c: nat)
    requires IsRun(cfg, steps, states) && i < |steps| && j < |steps| && steps[i] == Close(c) && steps[j] == Close(c)
    ensures i == j
  {
    if i < j {
      assert Enabled(states[i], steps[i]) && Enabled(states[j], steps[j]);
      ReachedStays(cfg, steps, states, i + 1, j, c, 4);
    } else if j < i {
      assert Enabled(states[i], steps[i]) && Enabled(states[j], steps[j]);
      ReachedStays(cfg, steps, states, j + 1, i, c, 4);
    }
  }

  ghost predicate HasResult<Q, R>(s: State<Q, R>, c: nat, r: R) {
    c < |s.calls| && s.calls[c].result == Some(r)
  }

  lemma ResultComesFrom<Q(!new), R(!new)>(cfg: Config<Q>, s: State<Q, R>, step: Step<Q, R>, c: nat, r: R)
    requires Enabled(s, step) && HasResult(Next(cfg, s, step), c, r)
    ensures step == Finish(c, r) || HasResult(s, c, r)
  {
  }

  /** A result anywhere was set by the exchange of that call. */
  lemma {:induction false} ResultFinished<Q(!new), R(!new)>(
    cfg: Config<Q>, steps: seq<Step<Q, R>>, states: seq<State<Q, R>>, i: nat, c: nat, r: R) returns (j: nat)
    requires IsRun(cfg, steps, states) && i <= |steps| && HasResult(states[i], c, r)
    ensures j < i && steps[j] == Finish(c, r)
  {
    hide Next, Enabled, HasResult;
    NoResult<Q, R>(c, r);
    ResultComesFrom(cfg, states[i - 1], steps[i - 1], c, r);
    if steps[i - 1] == Finish(c, r) {
      j := i - 1;
    } else {
      j := ResultFinished(cfg, steps, states, i - 1, c, r);
    }
  }

  lemma NoResult<Q(!new), R(!new)>(c: nat, r: R)
    ensures !HasResult<Q, R>(Start(), c, r)
  {
  }

  /** Closing happens after the result was set. */
  lemma ClosedAfterResult<Q(!new), R(!new)>(
    cfg: Config<Q>, steps: seq<Step<Q, R>>, states: seq<State<Q, R>>, i: nat) returns (j: nat)
    requires IsRun(cfg, steps, states) && i < |steps| && steps[i].Close?
    ensures j < i && steps[j].Finish? && steps[j].call == steps[i].call
  {
    hide Next, SlotsOK, WaitersOK;
    RunInv(cfg, steps, states, i);
    var s, c := states[i], steps[i].call;
    assert CallOK(cfg, s, c);
    j := ResultFinished(cfg, steps, states, i, c, s.calls[c].result.value);
  }

  // ----- what a waiter gets -----

  ghost predicate Injective<Q(!new)>(cfg: Config<Q>, asked: iset<Q>) {
    forall a, b :: a in asked && b in asked && cfg.key(a) == cfg.key(b) ==> a == b
  }

  ghost predicate AskedIn<Q(!new), R(!new)>(s: State<Q, R>, asked: iset<Q>) {
    && (forall c :: 0 <= c < |s.calls| ==> s.calls[c].question in asked)
    && forall w :: w in s.waiters ==> s.waiters[w].question in asked
  }

  lemma AskedStep<Q(!new), R(!new)>(cfg: Config<Q>, s: State<Q, R>, step: Step<Q, R>, asked: iset<Q>)
    requires Enabled(s, step) && AskedIn(s, asked) && (step.Enter? ==> step.question in asked)
    ensures AskedIn(Next(cfg, s, step), asked)
  {
  }

  lemma {:induction false} RunAsked<Q(!new), R(!new)>(
    cfg: Config<Q>, steps: seq<Step<Q, R>>, states: seq<State<Q, R>>, i: nat, asked: iset<Q>)
    requires IsRun(cfg, steps, states) && i <= |steps|
    requires forall x :: 0 <= x < |steps| && steps[x].Enter? ==> steps[x].question in asked
    ensures AskedIn(states[i], asked)
  {
    hide Next, Enabled, AskedIn;
    if i == 0 {
      NothingAsked<Q, R>(asked);
    } else {
      RunAsked(cfg, steps, states, i - 1, asked);
      AskedStep(cfg, states[i - 1], steps[i - 1], asked);
    }
  }

  lemma NothingAsked<Q(!new), R(!new)>(asked: iset<Q>)
    ensures AskedIn<Q, R>(Start(), asked)
  {
  }

  /** Whatever a waiter got came out of an exchange for its own question. */
  lemma WaiterGotOwn<Q(!new), R(!new)>(
    cfg: Config<Q>, steps: seq<Step<Q, R>>, states: seq<State<Q, R>>, i: nat, asked: iset<Q>, w: nat) returns (j: nat)
    requires IsRun(cfg, steps, states) && i <= |steps| && Injective(cfg, asked)
    requires forall x :: 0 <= x < |steps| && steps[x].Enter? ==> steps[x].question in asked
    requires w in states[i].waiters && states[i].waiters[w].Done? && states[i].waiters[w].outcome.Got?
    ensures var v := states[i].waiters[w];
            && v.outcome.call < |states[i].calls| && states[i].calls[v.outcome.call].question == v.question
            && j < i && steps[j] == Finish(v.outcome.call, v.outcome.result)
  {
    hide Next, Enabled, CallsOK, SlotsOK;
    RunInv(cfg, steps, states, i);
    RunAsked(cfg, steps, states, i, asked);
    var v := states[i].waiters[w];
    assert WaiterOK(cfg, states[i], v);
    j := ResultFinished(cfg, steps, states, i, v.outcome.call, v.outcome.result);
  }

  /** All waiters of one call that got a result got the same one, at whatever time they got it. */
  lemma SameCallSameResult<Q(!new), R(!new)>(
    cfg: Config<Q>, steps: seq<Step<Q, R>>, states: seq<State<Q, R>>, i: nat, w: nat, v: nat)
    requires IsRun(cfg, steps, states) && i <= |steps| && w in states[i].waiters && v in states[i].waiters
    requires states[i].waiters[w].Done? && states[i].waiters[w].outcome.Got?
    requires states[i].waiters[v].Done? && states[i].waiters[v].outcome.Got?
    requires states[i].waiters[w].outcome.call == states[i].waiters[v].outcome.call
    ensures states[i].waiters[w].outcome == states[i].waiters[v].outcome
  {
    hide Next, Enabled, CallsOK, SlotsOK;
    RunInv(cfg, steps, states, i);
    assert WaiterOK(cfg, states[i], states[i].waiters[w]) && WaiterOK(cfg, states[i], states[i].waiters[v]);
  }

  ghost function ValidQuestions(): iset<Question> {
    iset q: Question | ValidLabels(q.name)
  }

  function ForwarderConfig(t: Texts, cap: Option<nat>): Config<Question> {
    Config((q: Question) => ForwardKey(t, q), cap)
  }

  /** The forwarder's questions: name, type, class and DNSSEC-OK bit all match. */
  lemma ForwarderInjective(t: Texts, cap: Option<nat>)
    requires Telling(t.kind) && Telling(t.cls)
    ensures Injective(ForwarderConfig(t, cap), ValidQuestions())
  {
    hide ForwardKey, Telling, ValidLabels;
    var cfg := ForwarderConfig(t, cap);
    forall a, b | a in ValidQuestions() && b in ValidQuestions() && cfg.key(a) == cfg.key(b)
      ensures a == b
    {
      ForwardKeyInjective(t, a, b);
    }
  }

  datatype Lookup = Lookup(name: Name, kind: uint16)

  ghost function ValidLookups(): iset<Lookup> {
    iset q: Lookup | ValidLabels(q.name)
  }

  function ResolverConfig(cap: Option<nat>): Config<Lookup> {
    Config((q: Lookup) => ResolveKey(q.name, q.kind), cap)
  }

  /** The recursive resolver's questions: name and type. */
  lemma ResolverInjective(cap: Option<nat>)
    ensures Injective(ResolverConfig(cap), ValidLookups())
  {
    hide ResolveKey, ValidLabels;
    var cfg := ResolverConfig(cap);
    forall a, b | a in ValidLookups() && b in ValidLookups() && cfg.key(a) == cfg.key(b)
      ensures a == b
    {
      ResolveKeyInjective(a.name, a.kind, b.name, b.kind);
    }
  }

  // ----- cancellation -----

  /** The same but for waiter `w`, who has gone in one and still waits in the other. */
  ghost predicate SameBut<Q, R>(s: State<Q, R>, t: State<Q, R>, w: nat) {
    && s.inflight == t.inflight && s.calls == t.calls && s.held == t.held
    && w in s.waiters && w in t.waiters && s.waiters[w].Done?
    && (forall x :: x in s.waiters <==> x in t.waiters)
    && forall x :: x in s.waiters && x != w ==> s.waiters[x] == t.waiters[x]
  }

  lemma CancelDiffers<Q(!new), R(!new)>(cfg: Config<Q>, s: State<Q, R>, w: nat)
    requires Enabled(s, Cancel(w))
    ensures SameBut(Next(cfg, s, Cancel(w)), s, w)
  {
  }

  /** Any step possible after the cancellation is possible without it, with the same effect. */
  lemma SameButStep<Q(!new), R(!new)>(cfg: Config<Q>, s: State<Q, R>, t: State<Q, R>, w: nat, step: Step<Q, R>)
    requires SameBut(s, t, w) && Enabled(s, step)
    ensures Enabled(t, step) && SameBut(Next(cfg, s, step), Next(cfg, t, step), w)
  {
    match step
    case Enter(x, q) =>
      assert x != w;
    case _ =>
  }

  ghost function Replay<Q(!new), R(!new)>(cfg: Config<Q>, s: State<Q, R>, steps: seq<Step<Q, R>>): Option<State<Q, R>>
    decreases |steps|
  {
    if steps == [] then Some(s)
    else if !Enabled(s, steps[0]) then None
    else Replay(cfg, Next(cfg, s, steps[0]), steps[1..])
  }

  lemma {:induction false} ReplaySame<Q(!new), R(!new)>(
    cfg: Config<Q>, s: State<Q, R>, t: State<Q, R>, w: nat, steps: seq<Step<Q, R>>)
    requires SameBut(s, t, w) && Replay(cfg, s, steps).Some?
    ensures Replay(cfg, t, steps).Some? && SameBut(Replay(cfg, s, steps).value, Replay(cfg, t, steps).value, w)
    decreases |steps|
  {
    hide SameBut, Next, Enabled;
    if steps != [] {
      SameButStep(cfg, s, t, w, steps[0]);
      ReplaySame(cfg, Next(cfg, s, steps[0]), Next(cfg, t, steps[0]), w, steps[1..]);
    }
  }

  lemma {:induction false} ReplaySplits<Q(!new), R(!new)>(
    cfg: Config<Q>, s: State<Q, R>, a: seq<Step<Q, R>>, b: seq<Step<Q, R>>)
    ensures Replay(cfg, s, a + b) == match Replay(cfg, s, a) case None => None case Some(t) => Replay(cfg, t, b)
    decreases |a|
  {
    hide Next, Enabled;
    if a == [] {
      assert a + b == b;
    } else {
      assert (a + b)[1..] == a[1..] + b && (a + b)[0] == a[0];
      if Enabled(s, a[0]) {
        ReplaySplits(cfg, Next(cfg, s, a[0]), a[1..], b);
      }
    }
  }

  /** Cancelling changes nothing for anyone else: without the cancellation the rest of the run is
      still possible and ends in the same state, the canceller's own outcome aside. */
  lemma CancelInvisible<Q(!new), R(!new)>(
    cfg: Config<Q>, before: seq<Step<Q, R>>, w: nat, rest: seq<Step<Q, R>>)
    requires Replay(cfg, Start(), before + ([Cancel(w)] + rest)).Some?
    ensures Replay(cfg, Start(), before + rest).Some?
    ensures SameBut(Replay(cfg, Start(), before + ([Cancel(w)] + rest)).value, Replay(cfg, Start(), before + rest).value, w)
  {
    hide SameBut, Next, Enabled;
    ReplaySplits(cfg, Start(), before, [Cancel(w)] + rest);
    ReplaySplits(cfg, Start(), before, rest);
    var s := Replay(cfg, Start(), before).value;
    assert ([Cancel(w)] + rest)[1..] == rest;
    CancelDiffers(cfg, s, w);
    ReplaySame(cfg, Next(cfg, s, Cancel(w)), s, w, rest);
  }

  /** A call under the key of the question is published: at the upstream, or with its result set. */
  ghost predicate InFlight<Q(!new), R(!new)>(cfg: Config<Q>, s: State<Q, R>, q: Q, c: nat) {
    c < |s.calls| && cfg.key(s.calls[c].question) == cfg.key(q) && (s.calls[c].phase.Exchanging? || s.calls[c].phase.Resulted?)
  }

  /** A caller joins the call in flight for its key; if there is none it is turned away exactly when every
      slot is held, and otherwise starts an exchange of its own. */
  lemma EnterExactly<Q(!new), R(!new)>(cfg: Config<Q>, steps: seq<Step<Q, R>>, states: seq<State<Q, R>>, i: nat)
    requires IsRun(cfg, steps, states) && i < |steps| && steps[i].Enter?
    ensures var s, next, w, q := states[i], states[i + 1], steps[i].waiter, steps[i].question;
            && w in next.waiters
            && (forall c: nat :: InFlight(cfg, s, q, c) ==> next.waiters[w] == Waiting(q, c) && next.calls == s.calls)
            && ((forall c: nat :: !InFlight(cfg, s, q, c)) ==>
                  if cfg.cap.Some? && Holding(s.calls) == cfg.cap.value then
                    next.waiters[w] == Done(q, Refused) && next.calls == s.calls
                  else
                    next.waiters[w] == Waiting(q, |s.calls|) && next.calls == s.calls + [Call(q, Exchanging, None)])
            && forall v :: v in s.waiters ==> v in next.waiters && next.waiters[v] == s.waiters[v]
  {
    hide WaitersOK, Holding;
    RunInv(cfg, steps, states, i);
    var s, q := states[i], steps[i].question;
    if cfg.cap.Some? {
      SlotsExact(cfg, steps, states, i);
    }
    forall c: nat | InFlight(cfg, s, q, c)
      ensures cfg.key(q) in s.inflight && s.inflight[cfg.key(q)] == c
    {
      assert CallOK(cfg, s, c);
    }
    if cfg.key(q) in s.inflight {
      assert CallOK(cfg, s, s.inflight[cfg.key(q)]);
      assert InFlight(cfg, s, q, s.inflight[cfg.key(q)]);
    }
  }
}
