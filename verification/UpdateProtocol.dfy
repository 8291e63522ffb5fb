/** The UPDATE lock protocol as a state machine: any interleaving of read-lock checks, write-lock
    commits, reloads and query snapshots.  Each lock section is one step. */
module UpdateProtocol {
  import opened Names
  import opened Records
  import opened Zones
  import opened ZoneRuns
  import opened Prereqs
  import opened UpdateService

  /** `Arrive` runs the pre-lock checks and the read-lock section of request `t`; `Write` runs its
      write-lock section; `Snap` is a query taking the zone it will answer from. */
  datatype Step =
    | Arrive(t: nat, q: UpdateRequest)
    | Write(t: nat)
    | Reload(f: ZoneFile)
    | Snap(r: nat, name: Name)

  datatype State = State(
    zones: ZoneMap,
    waiting: map<nat, UpdateRequest>,  // passed the read-lock section, not yet the write lock
    replies: map<nat, Rcode>,
    snaps: map<nat, Option<Zone>>)

  function ZoneFor(zones: ZoneMap, name: Name): Option<Zone> {
    match Nearest(name, n => n in zones)
    case None => None
    case Some(o) => Some(zones[o])
  }

  predicate Enabled(s: State, step: Step) {
    match step
    case Arrive(t, _) => t !in s.waiting && t !in s.replies
    case Write(t) => t in s.waiting && |s.waiting[t].questions| == 1
    case Reload(_) => true
    case Snap(r, _) => r !in s.snaps
  }

  function Verdict(max: int, zones: ZoneMap, q: UpdateRequest): Rcode {
    if PreCheck(max, q) != NoError then PreCheck(max, q) else Check(zones, q)
  }

  function Reloaded(zones: ZoneMap, f: ZoneFile): ZoneMap {
    if Load(f).Loaded? then zones[f.origin := Load(f).zone] else zones
  }

  function Next(max: int, s: State, step: Step): State
    requires Enabled(s, step)
  {
    match step
    case Arrive(t, q) =>
      if Verdict(max, s.zones, q) != NoError then s.(replies := s.replies[t := Verdict(max, s.zones, q)])
      else s.(waiting := s.waiting[t := q])
    case Write(t) =>
      s.(zones := Commit(s.zones, s.waiting[t]),
         replies := s.replies[t := Check(s.zones, s.waiting[t])],
         waiting := s.waiting - {t})
    case Reload(f) => s.(zones := Reloaded(s.zones, f))
    case Snap(r, name) => s.(snaps := s.snaps[r := ZoneFor(s.zones, name)])
  }

  ghost predicate IsRun(max: int, s: State, run: seq<Step>)
    decreases |run|
  {
    run == [] || (Enabled(s, run[0]) && IsRun(max, Next(max, s, run[0]), run[1..]))
  }

  ghost function Exec(max: int, s: State, run: seq<Step>): State
    requires IsRun(max, s, run)
    decreases |run|
  {
    if run == [] then s else Exec(max, Next(max, s, run[0]), run[1..])
  }

  // ----- the sequential server -----

  datatype Event = Serve(t: nat, q: UpdateRequest) | LoadFile(f: ZoneFile) | Query(r: nat, name: Name)

  datatype SeqState = SeqState(zones: ZoneMap, replies: map<nat, Rcode>, snaps: map<nat, Option<Zone>>)

  function SeqNext(max: int, s: SeqState, e: Event): SeqState {
    match e
    case Serve(t, q) =>
      var (zones, rc) := ServeAtomic(max, s.zones, q);
      s.(zones := zones, replies := s.replies[t := rc])
    case LoadFile(f) => s.(zones := Reloaded(s.zones, f))
    case Query(r, name) => s.(snaps := s.snaps[r := ZoneFor(s.zones, name)])
  }

  function SeqExec(max: int, s: SeqState, es: seq<Event>): SeqState
    decreases |es|
  {
    if es == [] then s else SeqExec(max, SeqNext(max, s, es[0]), es[1..])
  }

  /** The point at which a step takes effect: a request is served where it is refused under the
      read lock, or else under the write lock. */
  function Effect(max: int, s: State, step: Step): seq<Event>
    requires Enabled(s, step)
  {
    match step
    case Arrive(t, q) => if Verdict(max, s.zones, q) != NoError then [Serve(t, q)] else []
    case Write(t) => [Serve(t, s.waiting[t])]
    case Reload(f) => [LoadFile(f)]
    case Snap(r, name) => [Query(r, name)]
  }

  ghost function Effects(max: int, s: State, run: seq<Step>): seq<Event>
    requires IsRun(max, s, run)
    decreases |run|
  {
    if run == [] then [] else Effect(max, s, run[0]) + Effects(max, Next(max, s, run[0]), run[1..])
  }

  function Visible(s: State): SeqState {
    SeqState(s.zones, s.replies, s.snaps)
  }

  /** Only admitted requests wait for the write lock. */
  ghost predicate WaitingOK(max: int, s: State) {
    forall t :: t in s.waiting ==> PreCheck(max, s.waiting[t]) == NoError
  }

  lemma SeqExecConcat(max: int, s: SeqState, e: seq<Event>, es: seq<Event>)
    requires |e| <= 1
    ensures SeqExec(max, s, e + es) == SeqExec(max, SeqExec(max, s, e), es)
  {
    if e == [] {
      assert e + es == es;
    } else {
      assert (e + es)[0] == e[0] && (e + es)[1..] == es;
      assert e[1..] == [];
      assert SeqExec(max, SeqNext(max, s, e[0]), e[1..]) == SeqNext(max, s, e[0]);
    }
  }

  lemma StepSimulates(max: int, s: State, step: Step)
    requires Enabled(s, step) && WaitingOK(max, s)
    ensures WaitingOK(max, Next(max, s, step))
    ensures SeqExec(max, Visible(s), Effect(max, s, step)) == Visible(Next(max, s, step))
  {
    var e := Effect(max, s, step);
    if e != [] {
      assert e[1..] == [];
      assert SeqExec(max, Visible(s), e) == SeqNext(max, Visible(s), e[0]);
    }
  }

  /** Serialisability in lock order: the published zones, every reply and every query's view are
      those of a server that handles the requests one at a time, each at its point of effect. */
  lemma {:induction false} Serialisable(max: int, s: State, run: seq<Step>)
    requires IsRun(max, s, run) && WaitingOK(max, s)
    ensures SeqExec(max, Visible(s), Effects(max, s, run)) == Visible(Exec(max, s, run))
    decreases |run|
  {
    if run != [] {
      StepSimulates(max, s, run[0]);
      var s' := Next(max, s, run[0]);
      Serialisable(max, s', run[1..]);
      SeqExecConcat(max, Visible(s), Effect(max, s, run[0]), Effects(max, s', run[1..]));
    }
  }

  /** Each request takes effect at most once, and exactly the answered ones do. */
  lemma {:induction false} ServedOnce(max: int, s: State, run: seq<Step>, t: nat)
    requires IsRun(max, s, run) && WaitingOK(max, s) && s.waiting.Keys !! s.replies.Keys
    ensures
      var n := CountServed(Effects(max, s, run), t);
      n == (if t in Exec(max, s, run).replies && t !in s.replies then 1 else 0)
    decreases |run|
  {
    if run != [] {
      StepSimulates(max, s, run[0]);
      var s' := Next(max, s, run[0]);
      ServedOnce(max, s', run[1..], t);
      if t in s'.replies {
        RepliesStay(max, s', run[1..], t);
      }
      CountServedConcat(Effect(max, s, run[0]), Effects(max, s', run[1..]), t);
    }
  }

  function CountServed(es: seq<Event>, t: nat): nat {
    if es == [] then 0 else (if es[0].Serve? && es[0].t == t then 1 else 0) + CountServed(es[1..], t)
  }

  lemma CountServedConcat(e: seq<Event>, es: seq<Event>, t: nat)
    requires |e| <= 1
    ensures CountServed(e + es, t) == CountServed(e, t) + CountServed(es, t)
  {
    if e == [] {
      assert e + es == es;
    } else {
      assert (e + es)[0] == e[0] && (e + es)[1..] == es && e[1..] == [];
    }
  }

  lemma {:induction false} RepliesStay(max: int, s: State, run: seq<Step>, t: nat)
    requires IsRun(max, s, run) && t in s.replies && s.waiting.Keys !! s.replies.Keys
    ensures t in Exec(max, s, run).replies && Exec(max, s, run).replies[t] == s.replies[t]
    decreases |run|
  {
    if run != [] {
      RepliesStay(max, Next(max, s, run[0]), run[1..], t);
    }
  }

  /** A commit is of a well-formed, allowed, in-zone request, found its prerequisites and shape
      satisfied in exactly the zone it replaced, and published the fold of its records plus the
      serial bump; any other step of a request leaves the published zones alone. */
  lemma WriteMeaning(max: int, s: State, step: Step)
    requires Enabled(s, step) && WaitingOK(max, s) && (step.Arrive? || step.Write?)
    ensures
      var s' := Next(max, s, step);
      if step.Write? && s'.replies[step.t] == NoError then
        var q := s.waiting[step.t];
        var o := q.questions[0].name;
        && Served(max, s.zones, q) && PrereqsHold(s.zones[o], q.prereqs)
        && (forall u :: u in q.updates ==> WellShaped(s.zones[o].origin, u))
        && s'.zones == s.zones[o := UpdateZone(s.zones[o], q.updates)]
      else s'.zones == s.zones
  {
    if step.Write? {
      ServeMeaning(max, s.zones, s.waiting[step.t]);
    }
  }

  /** A query reads the zone of the deepest published origin at or above its name, as published at that
      moment, and none exactly if there is none. */
  lemma SnapMeaning(max: int, s: State, r: nat, name: Name, o: Name)
    requires Enabled(s, Snap(r, name))
    ensures var got := Next(max, s, Snap(r, name)).snaps;
            && r in got && got.Keys == s.snaps.Keys + {r}
            && (got[r] == None <==> forall n :: AtOrBelow(name, n) ==> n !in s.zones)
            && (o in s.zones && AtOrBelow(name, o) && (forall n :: AtOrBelow(name, n) && n in s.zones ==> AtOrBelow(o, n)) ==>
                  got[r] == Some(s.zones[o]))
  {
    var p := (n: Name) => n in s.zones;
    if Nearest(name, p).Some? && o in s.zones && AtOrBelow(name, o) {
      NearestIsDeepest(name, p, o);
      var c := Nearest(name, p).value;
      if AtOrBelow(o, c) {
        AtOrBelowDepth(o, c);
        AtOrBelowDepth(c, o);
      }
    }
    forall n | AtOrBelow(name, n) && n in s.zones
      ensures Nearest(name, p).Some?
    {
      NearestIsDeepest(name, p, n);
    }
  }

  /** A reload publishes the loaded zone under its origin, or nothing, and touches no other zone. */
  lemma ReloadMeaning(max: int, s: State, f: ZoneFile)
    ensures var zones := Next(max, s, Reload(f)).zones;
            && (Load(f).Loaded? ==> f.origin in zones && zones[f.origin] == Load(f).zone && zones.Keys == s.zones.Keys + {f.origin})
            && (!Load(f).Loaded? ==> zones == s.zones)
            && forall k :: k in s.zones && k != f.origin ==> k in zones && zones[k] == s.zones[k]
  {
    hide Load;
  }

  // ----- every published zone and every snapshot is well formed -----

  ghost predicate FilesOK(run: seq<Step>) {
    forall i :: 0 <= i < |run| && run[i].Reload? ==> Loadable(run[i].f)
  }

  ghost predicate SnapsOK(s: State) {
    forall r :: r in s.snaps && s.snaps[r].Some? ==> ZoneOK(s.snaps[r].value)
  }

  lemma ReloadKeepsZonesOK(zones: ZoneMap, f: ZoneFile)
    requires AllZonesOK(zones) && Loadable(f)
    ensures AllZonesOK(Reloaded(zones, f))
  {
    if Load(f).Loaded? {
      LoadEstablishesZoneOK(f);
    }
  }

  lemma StepKeepsZonesOK(max: int, s: State, step: Step)
    requires Enabled(s, step) && WaitingOK(max, s) && AllZonesOK(s.zones)
    requires step.Reload? ==> Loadable(step.f)
    ensures AllZonesOK(Next(max, s, step).zones)
  {
    if step.Write? {
      CommitKeepsZonesOK(max, s.zones, s.waiting[step.t]);
    } else if step.Reload? {
      ReloadKeepsZonesOK(s.zones, step.f);
    }
  }

  lemma StepKeepsSnapsOK(max: int, s: State, step: Step)
    requires Enabled(s, step) && AllZonesOK(s.zones) && SnapsOK(s)
    ensures SnapsOK(Next(max, s, step))
  {
    if step.Snap? && ZoneFor(s.zones, step.name).Some? {
      var o := Nearest(step.name, n => n in s.zones).value;
      assert ZoneOK(s.zones[o]);
    }
  }

  lemma {:induction false} RunKeepsZonesOK(max: int, s: State, run: seq<Step>)
    requires IsRun(max, s, run) && WaitingOK(max, s) && AllZonesOK(s.zones) && SnapsOK(s) && FilesOK(run)
    ensures AllZonesOK(Exec(max, s, run).zones) && SnapsOK(Exec(max, s, run))
    decreases |run|
  {
    if run != [] {
      StepSimulates(max, s, run[0]);
      StepKeepsZonesOK(max, s, run[0]);
      StepKeepsSnapsOK(max, s, run[0]);
      RunKeepsZonesOK(max, Next(max, s, run[0]), run[1..]);
    }
  }
}
