/** Sharing one upstream exchange among all callers that ask the same question at the same time, as
    a machine whose steps are the critical sections of callers and of the exchanging goroutine. */
module SingleFlight {
  import opened Names
  import opened WireDecode

  /** A call's goroutine: at the upstream, then with its result set, then with its entry deleted,
      then with its slot given back, then with `done` closed. */
  datatype Phase = Exchanging | Resulted | Deleted | Released | Closed

  datatype Call<Q, R> = Call(question: Q, phase: Phase, result: Option<R>)

  datatype Outcome<R> = Got(call: nat, result: R) | Refused | Cancelled

  datatype Waiter<Q, R> = Waiting(question: Q, call: nat) | Done(question: Q, outcome: Outcome<R>)

  datatype State<Q, R> = State(
    inflight: map<Bytes, nat>, calls: seq<Call<Q, R>>, held: nat, waiters: map<nat, Waiter<Q, R>>)

  datatype Step<Q, R> =
    | Enter(waiter: nat, question: Q)
    | Finish(call: nat, result: R)
    | Delete(call: nat)
    | Release(call: nat)
    | Close(call: nat)
    | Receive(waiter: nat)
    | Cancel(waiter: nat)

  /** The key of a question, and the number of slots if there is a semaphore. */
  datatype Config<!Q> = Config(key: Q -> Bytes, cap: Option<nat>)

  predicate InPhase<Q, R>(s: State<Q, R>, c: nat, p: Phase) {
    c < |s.calls| && s.calls[c].phase == p
  }

  predicate IsWaiting<Q, R>(s: State<Q, R>, w: nat) {
    w in s.waiters && s.waiters[w].Waiting?
  }

  predicate Enabled<Q, R>(s: State<Q, R>, step: Step<Q, R>) {
    match step
    case Enter(w, _) => w !in s.waiters
    case Finish(c, _) => InPhase(s, c, Exchanging)
    case Delete(c) => InPhase(s, c, Resulted)
    case Release(c) => InPhase(s, c, Deleted)
    case Close(c) => InPhase(s, c, Released)
    case Receive(w) => IsWaiting(s, w) && InPhase(s, s.waiters[w].call, Closed) && s.calls[s.waiters[w].call].result.Some?
    case Cancel(w) => IsWaiting(s, w)
  }

  predicate HasRoom<Q, R>(cfg: Config<Q>, s: State<Q, R>) {
    cfg.cap.Some? ==> s.held < cfg.cap.value
  }

  /** A caller joins the published call, or publishes one and takes a slot, or is turned away. */
  function Entered<Q, R>(cfg: Config<Q>, s: State<Q, R>, w: nat, q: Q): State<Q, R> {
    var k := cfg.key(q);
    if k in s.inflight then s.(waiters := s.waiters[w := Waiting(q, s.inflight[k])])
    else if !HasRoom(cfg, s) then s.(waiters := s.waiters[w := Done(q, Refused)])
    else
      State(s.inflight[k := |s.calls|], s.calls + [Call(q, Exchanging, None)],
            if cfg.cap.Some? then s.held + 1 else s.held,
            s.waiters[w := Waiting(q, |s.calls|)])
  }

  function WithPhase<Q, R>(s: State<Q, R>, c: nat, p: Phase): State<Q, R>
    requires c < |s.calls|
  {
    s.(calls := s.calls[c := s.calls[c].(phase := p)])
  }

  /** The entry is deleted by key, whoever published it; giving a slot back takes one that is
      held. */
  function Next<Q, R>(cfg: Config<Q>, s: State<Q, R>, step: Step<Q, R>): State<Q, R>
    requires Enabled(s, step)
  {
    match step
    case Enter(w, q) => Entered(cfg, s, w, q)
    case Finish(c, r) => s.(calls := s.calls[c := s.calls[c].(phase := Resulted, result := Some(r))])
    case Delete(c) => WithPhase(s, c, Deleted).(inflight := s.inflight - {cfg.key(s.calls[c].question)})
    case Release(c) => WithPhase(s, c, Released).(held := if cfg.cap.Some? && s.held > 0 then s.held - 1 else s.held)
    case Close(c) => WithPhase(s, c, Closed)
    case Receive(w) =>
      var c := s.waiters[w].call;
      s.(waiters := s.waiters[w := Done(s.waiters[w].question, Got(c, s.calls[c].result.value))])
    case Cancel(w) => s.(waiters := s.waiters[w := Done(s.waiters[w].question, Cancelled)])
  }

  // ----- what every step keeps -----

  predicate Published(p: Phase) {
    p.Exchanging? || p.Resulted?
  }

  predicate HoldsSlot(p: Phase) {
    p.Exchanging? || p.Resulted? || p.Deleted?
  }

  ghost predicate CallOK<Q(!new), R(!new)>(cfg: Config<Q>, s: State<Q, R>, c: nat)
    requires c < |s.calls|
  {
    var k := cfg.key(s.calls[c].question);
    && (Published(s.calls[c].phase) <==> k in s.inflight && s.inflight[k] == c)
    && (s.calls[c].result.Some? <==> !s.calls[c].phase.Exchanging?)
  }

  ghost predicate CallsOK<Q(!new), R(!new)>(cfg: Config<Q>, s: State<Q, R>) {
    && (forall c :: 0 <= c < |s.calls| ==> CallOK(cfg, s, c))
    && forall k :: k in s.inflight ==> s.inflight[k] < |s.calls| && cfg.key(s.calls[s.inflight[k]].question) == k
  }

  ghost predicate WaiterOK<Q(!new), R(!new)>(cfg: Config<Q>, s: State<Q, R>, v: Waiter<Q, R>) {
    match v
    case Waiting(q, c) => c < |s.calls| && cfg.key(s.calls[c].question) == cfg.key(q)
    case Done(q, Got(c, r)) =>
      && c < |s.calls| && cfg.key(s.calls[c].question) == cfg.key(q)
      && s.calls[c].phase == Closed && s.calls[c].result == Some(r)
    case Done(_, _) => true
  }

  ghost predicate WaitersOK<Q(!new), R(!new)>(cfg: Config<Q>, s: State<Q, R>) {
    forall w :: w in s.waiters ==> WaiterOK(cfg, s, s.waiters[w])
  }

  /** The goroutines that have not given their slot back. */
  function Holding<Q, R>(calls: seq<Call<Q, R>>): nat {
    if calls == [] then 0
    else Holding(calls[..|calls| - 1]) + (if HoldsSlot(calls[|calls| - 1].phase) then 1 else 0)
  }

  ghost predicate SlotsOK<Q(!new), R(!new)>(cfg: Config<Q>, s: State<Q, R>) {
    cfg.cap.Some? ==> s.held == Holding(s.calls) && s.held <= cfg.cap.value
  }

  lemma {:induction false} HoldingUpdate<Q(!new), R(!new)>(calls: seq<Call<Q, R>>, c: nat, call: Call<Q, R>)
    requires c < |calls|
    ensures Holding(calls[c := call])
            == Holding(calls) - (if HoldsSlot(calls[c].phase) then 1 else 0) + (if HoldsSlot(call.phase) then 1 else 0)
  {
    var n := |calls| - 1;
    if c < n {
      assert calls[c := call][..n] == calls[..n][c := call];
      HoldingUpdate(calls[..n], c, call);
    } else {
      assert calls[c := call][..n] == calls[..n];
    }
  }

  lemma HoldingPush<Q(!new), R(!new)>(calls: seq<Call<Q, R>>, call: Call<Q, R>)
    ensures Holding(calls + [call]) == Holding(calls) + (if HoldsSlot(call.phase) then 1 else 0)
  {
    assert (calls + [call])[..|calls|] == calls;
  }

  lemma SlotsStep<Q(!new), R(!new)>(cfg: Config<Q>, s: State<Q, R>, step: Step<Q, R>)
    requires Enabled(s, step) && SlotsOK(cfg, s)
    ensures SlotsOK(cfg, Next(cfg, s, step))
    ensures step.Release? && cfg.cap.Some? ==> s.held > 0
  {
    hide Holding;
    match step
    case Enter(w, q) =>
      HoldingPush(s.calls, Call(q, Exchanging, None));
    case Finish(c, r) =>
      HoldingUpdate(s.calls, c, s.calls[c].(phase := Resulted, result := Some(r)));
    case Delete(c) =>
      HoldingUpdate(s.calls, c, s.calls[c].(phase := Deleted));
    case Release(c) =>
      HoldingUpdate(s.calls, c, s.calls[c].(phase := Released));
    case Close(c) =>
      HoldingUpdate(s.calls, c, s.calls[c].(phase := Closed));
    case _ =>
  }

  lemma EnterCalls<Q(!new), R(!new)>(cfg: Config<Q>, s: State<Q, R>, w: nat, q: Q)
    requires CallsOK(cfg, s)
    ensures CallsOK(cfg, Entered(cfg, s, w, q))
  {
    var t := Entered(cfg, s, w, q);
    if |t.calls| == |s.calls| {
      forall c | 0 <= c < |t.calls|
        ensures CallOK(cfg, t, c)
      {
        assert CallOK(cfg, s, c);
      }
    } else {
      forall c | 0 <= c < |t.calls|
        ensures CallOK(cfg, t, c)
      {
        if c < |s.calls| {
          assert CallOK(cfg, s, c);
        }
      }
    }
  }

  /** A call moves on without touching the map. */
  lemma MoveCalls<Q(!new), R(!new)>(cfg: Config<Q>, s: State<Q, R>, c: nat, call: Call<Q, R>)
    requires CallsOK(cfg, s) && c < |s.calls| && call.question == s.calls[c].question
    requires Published(call.phase) == Published(s.calls[c].phase) && (call.result.Some? <==> !call.phase.Exchanging?)
    ensures CallsOK(cfg, s.(calls := s.calls[c := call]))
  {
    var t := s.(calls := s.calls[c := call]);
    forall x | 0 <= x < |t.calls|
      ensures CallOK(cfg, t, x)
    {
      assert CallOK(cfg, s, x);
    }
  }

  /** Deletion by key removes this call's own entry and no other. */
  lemma DeleteCalls<Q(!new), R(!new)>(cfg: Config<Q>, s: State<Q, R>, c: nat)
    requires CallsOK(cfg, s) && InPhase(s, c, Resulted)
    ensures CallsOK(cfg, Next(cfg, s, Delete(c)))
    ensures cfg.key(s.calls[c].question) in s.inflight && s.inflight[cfg.key(s.calls[c].question)] == c
  {
    var t := Next(cfg, s, Delete(c));
    assert CallOK(cfg, s, c);
    forall x | 0 <= x < |t.calls|
      ensures CallOK(cfg, t, x)
    {
      assert CallOK(cfg, s, x);
    }
  }

  lemma CallsStep<Q(!new), R(!new)>(cfg: Config<Q>, s: State<Q, R>, step: Step<Q, R>)
    requires Enabled(s, step) && CallsOK(cfg, s)
    ensures CallsOK(cfg, Next(cfg, s, step))
  {
    hide CallOK;
    match step
    case Enter(w, q) => EnterCalls(cfg, s, w, q);
    case Finish(c, r) => MoveCalls(cfg, s, c, s.calls[c].(phase := Resulted, result := Some(r)));
    case Delete(c) => DeleteCalls(cfg, s, c);
    case Release(c) =>
      ResultSet(cfg, s, c);
      MoveCalls(cfg, s, c, s.calls[c].(phase := Released));
      SameCalls(cfg, s.(calls := s.calls[c := s.calls[c].(phase := Released)]), Next(cfg, s, step));
    case Close(c) =>
      ResultSet(cfg, s, c);
      MoveCalls(cfg, s, c, s.calls[c].(phase := Closed));
    case Receive(w) => SameCalls(cfg, s, Next(cfg, s, step));
    case Cancel(w) => SameCalls(cfg, s, Next(cfg, s, step));
  }

  lemma ResultSet<Q(!new), R(!new)>(cfg: Config<Q>, s: State<Q, R>, c: nat)
    requires CallsOK(cfg, s) && c < |s.calls|
    ensures s.calls[c].result.Some? <==> !s.calls[c].phase.Exchanging?
  {
    assert CallOK(cfg, s, c);
  }

  lemma SameCalls<Q(!new), R(!new)>(cfg: Config<Q>, s: State<Q, R>, t: State<Q, R>)
    requires CallsOK(cfg, s) && t.calls == s.calls && t.inflight == s.inflight
    ensures CallsOK(cfg, t)
  {
    forall c | 0 <= c < |t.calls|
      ensures CallOK(cfg, t, c)
    {
      assert CallOK(cfg, s, c);
    }
  }

  /** Calls keep their question, and once closed their result. */
  ghost predicate Grows<Q(!new), R(!new)>(s: State<Q, R>, t: State<Q, R>) {
    && |s.calls| <= |t.calls|
    && forall c :: 0 <= c < |s.calls| ==>
      && t.calls[c].question == s.calls[c].question
      && (s.calls[c].result.Some? ==> t.calls[c].result == s.calls[c].result)
      && (s.calls[c].phase.Closed? ==> t.calls[c].phase.Closed?)
  }

  lemma StepGrows<Q(!new), R(!new)>(cfg: Config<Q>, s: State<Q, R>, step: Step<Q, R>)
    requires Enabled(s, step) && CallsOK(cfg, s)
    ensures Grows(s, Next(cfg, s, step))
  {
    hide CallOK;
    if step.Finish? {
      ResultSet(cfg, s, step.call);
    }
  }

  lemma GrownWaiter<Q(!new), R(!new)>(cfg: Config<Q>, s: State<Q, R>, t: State<Q, R>, v: Waiter<Q, R>)
    requires Grows(s, t) && WaiterOK(cfg, s, v)
    ensures WaiterOK(cfg, t, v)
  {
  }

  lemma EnteredWaiter<Q(!new), R(!new)>(cfg: Config<Q>, s: State<Q, R>, w: nat, q: Q)
    requires CallsOK(cfg, s)
    ensures WaiterOK(cfg, Entered(cfg, s, w, q), Entered(cfg, s, w, q).waiters[w])
  {
    hide CallOK;
  }

  lemma ReceivedWaiter<Q(!new), R(!new)>(cfg: Config<Q>, s: State<Q, R>, w: nat)
    requires Enabled(s, Receive(w)) && WaitersOK(cfg, s)
    ensures WaiterOK(cfg, Next(cfg, s, Receive(w)), Next(cfg, s, Receive(w)).waiters[w])
  {
    assert WaiterOK(cfg, s, s.waiters[w]);
  }

  ghost function WaiterOf<Q(!new), R(!new)>(step: Step<Q, R>): Option<nat> {
    match step
    case Enter(w, _) => Some(w)
    case Receive(w) => Some(w)
    case Cancel(w) => Some(w)
    case _ => None
  }

  lemma OtherWaiters<Q(!new), R(!new)>(cfg: Config<Q>, s: State<Q, R>, step: Step<Q, R>, w: nat)
    requires Enabled(s, step) && WaiterOf(step) != Some(w)
    ensures (w in Next(cfg, s, step).waiters <==> w in s.waiters)
    ensures w in s.waiters ==> Next(cfg, s, step).waiters[w] == s.waiters[w]
  {
  }

  lemma OwnWaiter<Q(!new), R(!new)>(cfg: Config<Q>, s: State<Q, R>, step: Step<Q, R>, w: nat)
    requires Enabled(s, step) && CallsOK(cfg, s) && WaitersOK(cfg, s) && WaiterOf(step) == Some(w)
    ensures w in Next(cfg, s, step).waiters && WaiterOK(cfg, Next(cfg, s, step), Next(cfg, s, step).waiters[w])
  {
    hide CallsOK, WaitersOK, WaiterOK;
    match step
    case Enter(_, q) => EnteredWaiter(cfg, s, w, q);
    case Receive(_) => ReceivedWaiter(cfg, s, w);
    case Cancel(_) => CancelledWaiter(cfg, s, w);
  }

  lemma CancelledWaiter<Q(!new), R(!new)>(cfg: Config<Q>, s: State<Q, R>, w: nat)
    requires Enabled(s, Cancel(w))
    ensures WaiterOK(cfg, Next(cfg, s, Cancel(w)), Next(cfg, s, Cancel(w)).waiters[w])
  {
  }

  lemma WaitersStep<Q(!new), R(!new)>(cfg: Config<Q>, s: State<Q, R>, step: Step<Q, R>)
    requires Enabled(s, step) && CallsOK(cfg, s) && WaitersOK(cfg, s)
    ensures WaitersOK(cfg, Next(cfg, s, step))
  {
    hide WaiterOK, Next, Enabled, CallsOK, Grows;
    var t := Next(cfg, s, step);
    StepGrows(cfg, s, step);
    forall w | w in t.waiters
      ensures WaiterOK(cfg, t, t.waiters[w])
    {
      if WaiterOf(step) == Some(w) {
        OwnWaiter(cfg, s, step, w);
      } else {
        OtherWaiters(cfg, s, step, w);
        GrownWaiter(cfg, s, t, s.waiters[w]);
      }
    }
  }

  ghost predicate Inv<Q(!new), R(!new)>(cfg: Config<Q>, s: State<Q, R>) {
    CallsOK(cfg, s) && SlotsOK(cfg, s) && WaitersOK(cfg, s)
  }

  lemma InvStep<Q(!new), R(!new)>(cfg: Config<Q>, s: State<Q, R>, step: Step<Q, R>)
    requires Enabled(s, step) && Inv(cfg, s)
    ensures Inv(cfg, Next(cfg, s, step))
  {
    hide CallsOK, SlotsOK, WaitersOK, Next, Enabled;
    CallsStep(cfg, s, step);
    SlotsStep(cfg, s, step);
    WaitersStep(cfg, s, step);
  }
}
