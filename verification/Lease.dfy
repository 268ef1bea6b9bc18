/**
The progress lease and the supervisor's use of it: a renewal is taken only while the lease
lives and every supervised loop is in time, and NetBird is launched only while it is held.
Times are boot-clock nanoseconds.
*/
module Lease {
  import opened Rtnl
  import opened Contract

  const SECOND := 1_000_000_000
  const MUTATOR_BOUND := 10 * SECOND
  const LOOP_BOUND := 3 * SECOND
  const TRANSIT_SLACK := SECOND
  const STARTUP_ALLOWANCE := 30 * SECOND

  /** The loops a mode supervises, and their bounds. */
  function LoopBounds(c: Config): map<string, nat> {
    var b := map["mutator" := MUTATOR_BOUND, "watcher" := LOOP_BOUND];
    var b' := if c.IsGluetun() && c.kind.Overlay? then b["fwmark" := LOOP_BOUND]["log" := LOOP_BOUND] else b;
    if c.IsGluetunSidecar() then b' - {"watcher"} else b'
  }

  /** A renewal that was accepted: when, and the last completed step of every loop. */
  datatype Renewal = Renewal(at: nat, loops: map<string, nat>)

  datatype State = State(
    gen: string,
    lastSeq: nat,
    lastStatusSeq: nat,
    accepted: bool,
    deadline: nat,
    revoked: bool,
    lapsed: bool,
    /** The last renewal accepted in this generation. */
    renewed: Opt<Renewal>
  )

  const UNSTARTED := State("", 0, 0, false, 0, true, false, None)

  /** A passed deadline is remembered for good. */
  function Noted(s: State, now: nat): State {
    if !s.revoked && now >= s.deadline then s.(lapsed := true) else s
  }

  predicate InTime(bounds: map<string, nat>, loops: map<string, nat>, now: nat) {
    forall name :: name in bounds ==>
      name in loops && loops[name] <= now && now - loops[name] <= bounds[name] + TRANSIT_SLACK
  }

  predicate Acceptable(s: State, bounds: map<string, nat>, now: nat, gen: string, seqNo: nat, loops: map<string, nat>) {
    && !s.revoked && !Noted(s, now).lapsed && gen == s.gen && seqNo > s.lastSeq
    && |loops| == |bounds| && InTime(bounds, loops, now)
  }

  function Renewed(s: State, bounds: map<string, nat>, grace: nat, now: nat, gen: string, seqNo: nat, loops: map<string, nat>): State {
    if Acceptable(s, bounds, now, gen, seqNo, loops) then
      Noted(s, now).(lastSeq := seqNo, accepted := true, deadline := now + grace, renewed := Some(Renewal(now, loops)))
    else Noted(s, now)
  }

  predicate StatusAcceptable(s: State, now: nat, gen: string, seqNo: nat) {
    !s.revoked && !Noted(s, now).lapsed && gen == s.gen && seqNo > s.lastStatusSeq
  }

  function StatusTaken(s: State, now: nat, gen: string, seqNo: nat): State {
    if StatusAcceptable(s, now, gen, seqNo) then Noted(s, now).(lastStatusSeq := seqNo) else Noted(s, now)
  }

  predicate Held(s: State, now: nat) {
    !s.revoked && !s.lapsed && s.accepted && now < s.deadline
  }

  predicate Lapsed(s: State, now: nat) {
    !s.revoked && (s.lapsed || now >= s.deadline)
  }

  function Begun(gen: string, now: nat): State {
    State(gen, 0, 0, false, now + STARTUP_ALLOWANCE, false, false, None)
  }

  /** An accepted deadline is the grace after a renewal whose loops were all in time. */
  predicate Backed(s: State, bounds: map<string, nat>, grace: nat) {
    s.accepted ==> s.renewed.Some? && s.deadline == s.renewed.v.at + grace && InTime(bounds, s.renewed.v.loops, s.renewed.v.at)
  }

  /** While the lease is held, every supervised loop has completed a step within its bound, the
      slack and the grace. */
  lemma HeldMeansProgress(s: State, bounds: map<string, nat>, grace: nat, now: nat, name: string)
    requires Backed(s, bounds, grace) && Held(s, now) && name in bounds
    ensures name in s.renewed.v.loops && now < s.renewed.v.loops[name] + bounds[name] + TRANSIT_SLACK + grace
  {
  }

  class Lease {
    const grace: nat
    const bounds: map<string, nat>
    var gen: string
    var lastSeq: nat
    var lastStatusSeq: nat
    var accepted: bool
    var deadline: nat
    var revoked: bool
    var lapsed: bool
    ghost var renewed: Opt<Renewal>

    constructor (grace: nat, bounds: map<string, nat>)
      ensures this.grace == grace && this.bounds == bounds && View() == UNSTARTED
    {
      this.grace, this.bounds := grace, bounds;
      gen, lastSeq, lastStatusSeq, accepted, deadline, revoked, lapsed, renewed := "", 0, 0, false, 0, true, false, None;
    }

    ghost function View(): State
      reads this
    {
      State(gen, lastSeq, lastStatusSeq, accepted, deadline, revoked, lapsed, renewed)
    }

    method NewGeneration(now: nat, drawn: string)
      modifies this
      ensures View() == Begun(drawn, now)
    {
      gen := drawn;
      lastSeq, lastStatusSeq := 0, 0;
      accepted, revoked, lapsed := false, false, false;
      deadline := now + STARTUP_ALLOWANCE;
      renewed := None;
    }

    method Revoke()
      modifies this`revoked
      ensures View() == old(View()).(revoked := true)
    {
      revoked := true;
    }

    method NoteExpiry(now: nat)
      modifies this`lapsed
      ensures View() == Noted(old(View()), now)
    {
      if !revoked && now >= deadline {
        lapsed := true;
      }
    }

    /** Judges a renewal; an accepted one moves the expiry to the grace from now. */
    method Accept(now: nat, g: string, seqNo: nat, loops: map<string, nat>) returns (ok: bool)
      requires Backed(View(), bounds, grace)
      modifies this
      ensures ok <==> Acceptable(old(View()), bounds, now, g, seqNo, loops)
      ensures View() == Renewed(old(View()), bounds, grace, now, g, seqNo, loops)
      ensures Backed(View(), bounds, grace)
    {
      hide Backed;
      RenewedBacked(View(), bounds, grace, now, g, seqNo, loops);
      NoteExpiry(now);
      if revoked || lapsed || g != gen || seqNo <= lastSeq || |loops| != |bounds| {
        return false;
      }
      var names := bounds.Keys;
      while names != {}
        invariant names <= bounds.Keys && View() == Noted(old(View()), now)
        invariant forall n :: n in bounds && n !in names ==>
                    n in loops && loops[n] <= now && now - loops[n] <= bounds[n] + TRANSIT_SLACK
        decreases |names|
      {
        var name :| name in names;
        if name !in loops || loops[name] > now || now - loops[name] > bounds[name] + TRANSIT_SLACK {
          return false;
        }
        names := names - {name};
      }
      lastSeq, accepted, deadline := seqNo, true, now + grace;
      renewed := Some(Renewal(now, loops));
      ok := true;
    }

    method AcceptStatus(now: nat, g: string, seqNo: nat) returns (ok: bool)
      modifies this
      ensures ok <==> StatusAcceptable(old(View()), now, g, seqNo)
      ensures View() == StatusTaken(old(View()), now, g, seqNo)
    {
      NoteExpiry(now);
      ok := !(revoked || lapsed || g != gen || seqNo <= lastStatusSeq);
      if ok {
        lastStatusSeq := seqNo;
      }
    }
  }

  // ---- the supervisor's events ----

  datatype Msg = Renew(gen: string, seqNo: nat, loops: map<string, nat>) | Ready(gen: string) | Unready(gen: string)
               | Status(gen: string, seqNo: nat, valid: bool) | Log

  /** What the loop handles, and the manager marking its launch over on its own. */
  datatype Event = Tick | Message(m: Msg) | WorkerGone | Violation | Signal
                 | NetBirdDown(launch: nat) | NetBirdStopped(launch: nat) | LaunchOver

  /** What the supervisor holds; a launch and a record published are remembered with their time.
      Launches are numbered from one, and active means the manager takes no new one. */
  datatype Sup = Sup(
    lease: State,
    gen: string,
    wantNB: bool,
    stopping: bool,
    active: bool,
    launches: seq<(nat, State)>,
    published: seq<(nat, State)>
  )

  function MaybeStart(s: Sup, now: nat): Sup {
    if s.stopping || !s.wantNB || !Held(s.lease, now) || s.active then s
    else s.(active := true, launches := s.launches + [(now, s.lease)])
  }

  function StopAll(s: Sup): Sup {
    s.(stopping := true, wantNB := false, lease := s.lease.(revoked := true))
  }

  function HandleMsg(s: Sup, bounds: map<string, nat>, grace: nat, now: nat, m: Msg): Sup {
    match m
    case Renew(gen, n, loops) =>
      var ok := Acceptable(s.lease, bounds, now, gen, n, loops);
      var t := s.(lease := Renewed(s.lease, bounds, grace, now, gen, n, loops));
      if ok then MaybeStart(t, now) else t
    case Ready(gen) => if gen != s.gen then s else MaybeStart(s.(wantNB := true), now)
    case Unready(gen) => if gen != s.gen then s else s.(wantNB := false)
    case Status(gen, n, valid) =>
      var t := s.(lease := StatusTaken(s.lease, now, gen, n));
      if !StatusAcceptable(s.lease, now, gen, n) then t
      else if !valid then StopAll(t)
      else t.(published := t.published + [(now, t.lease)])
    case Log => s
  }

  /** One event of the loop, at a time. Once the stop sequence has begun no event is handled. */
  function Handle(s: Sup, bounds: map<string, nat>, grace: nat, now: nat, e: Event): Sup {
    if s.stopping then s
    else
      match e
      case Tick => if Lapsed(s.lease, now) then StopAll(s) else s
      case Message(m) => if Lapsed(s.lease, now) then StopAll(s) else HandleMsg(s, bounds, grace, now, m)
      case WorkerGone => StopAll(s)
      case Violation => StopAll(s)
      case Signal => StopAll(s)
      case NetBirdDown(launch) => if launch != |s.launches| then s else StopAll(s)
      case NetBirdStopped(launch) => if launch != |s.launches| then s else MaybeStart(s, now)
      case LaunchOver => s.(active := false)
  }

  /** An event NetBird may be started on, and the lease it is started under. */
  predicate Starts(s: Sup, bounds: map<string, nat>, grace: nat, now: nat, e: Event) {
    match e
    case Message(Ready(gen)) => gen == s.gen && !Lapsed(s.lease, now) && Held(s.lease, now)
    case Message(Renew(gen, n, loops)) =>
      && !Lapsed(s.lease, now) && Acceptable(s.lease, bounds, now, gen, n, loops)
      && s.wantNB && Held(Renewed(s.lease, bounds, grace, now, gen, n, loops), now)
    case NetBirdStopped(launch) => launch == |s.launches| && s.wantNB && Held(s.lease, now)
    case _ => false
  }

  /** NetBird is launched, once, exactly when the worker wants it, none is running, the lease is held
      and the stop sequence has not begun: on the worker's word, on a renewal, or when the launch
      before has stopped. */
  lemma LaunchedIff(s: Sup, bounds: map<string, nat>, grace: nat, now: nat, e: Event)
    ensures var t := Handle(s, bounds, grace, now, e);
            if !s.stopping && !s.active && Starts(s, bounds, grace, now, e) then
              t.active && t.wantNB && !t.stopping && Held(t.lease, now) && t.launches == s.launches + [(now, t.lease)]
            else t.launches == s.launches
  {
    hide Held, Lapsed, Acceptable, Renewed, StatusTaken, StatusAcceptable;
  }

  datatype Timed = Timed(now: nat, e: Event)

  function RunFrom(s: Sup, bounds: map<string, nat>, grace: nat, events: seq<Timed>): Sup
    decreases |events|
  {
    if |events| == 0 then s
    else RunFrom(Handle(s, bounds, grace, events[0].now, events[0].e), bounds, grace, events[1..])
  }

  /** Every launch and every publication was made under a lease that lived. */
  ghost predicate Inv(s: Sup, bounds: map<string, nat>, grace: nat) {
    && Backed(s.lease, bounds, grace)
    && (forall x :: x in s.launches ==> Held(x.1, x.0) && Backed(x.1, bounds, grace))
    && (forall x :: x in s.published ==> !x.1.revoked && !x.1.lapsed && x.0 < x.1.deadline)
  }

  lemma MaybeStartKeeps(s: Sup, bounds: map<string, nat>, grace: nat, now: nat)
    requires Inv(s, bounds, grace)
    ensures Inv(MaybeStart(s, now), bounds, grace)
  {
    hide Backed;
  }

  lemma RenewedBacked(s: State, bounds: map<string, nat>, grace: nat, now: nat, gen: string, n: nat, loops: map<string, nat>)
    requires Backed(s, bounds, grace)
    ensures Backed(Renewed(s, bounds, grace, now, gen, n, loops), bounds, grace)
  {
    hide InTime;
  }

  lemma RenewKeeps(s: Sup, bounds: map<string, nat>, grace: nat, now: nat, m: Msg)
    requires Inv(s, bounds, grace) && m.Renew?
    ensures Inv(HandleMsg(s, bounds, grace, now, m), bounds, grace)
  {
    RenewedBacked(s.lease, bounds, grace, now, m.gen, m.seqNo, m.loops);
    hide Backed, Acceptable, Renewed, MaybeStart;
    var t := s.(lease := Renewed(s.lease, bounds, grace, now, m.gen, m.seqNo, m.loops));
    MaybeStartKeeps(t, bounds, grace, now);
  }

  lemma StatusKeeps(s: Sup, bounds: map<string, nat>, grace: nat, now: nat, m: Msg)
    requires Inv(s, bounds, grace) && m.Status?
    ensures Inv(HandleMsg(s, bounds, grace, now, m), bounds, grace)
  {
    hide InTime, Held;
  }

  lemma HandleKeeps(s: Sup, bounds: map<string, nat>, grace: nat, now: nat, e: Event)
    requires Inv(s, bounds, grace)
    ensures Inv(Handle(s, bounds, grace, now, e), bounds, grace)
  {
    hide InTime, Held, HandleMsg, MaybeStart;
    if e.Message? {
      MsgKeeps(s, bounds, grace, now, e.m);
    } else if e.NetBirdStopped? {
      MaybeStartKeeps(s, bounds, grace, now);
    }
  }

  lemma MsgKeeps(s: Sup, bounds: map<string, nat>, grace: nat, now: nat, m: Msg)
    requires Inv(s, bounds, grace)
    ensures Inv(HandleMsg(s, bounds, grace, now, m), bounds, grace)
  {
    match m
    case Renew(_, _, _) => RenewKeeps(s, bounds, grace, now, m);
    case Ready(_) => MaybeStartKeeps(s.(wantNB := true), bounds, grace, now);
    case Unready(_) =>
    case Status(_, _, _) => StatusKeeps(s, bounds, grace, now, m);
    case Log =>
  }

  lemma {:induction false} RunKeeps(s: Sup, bounds: map<string, nat>, grace: nat, events: seq<Timed>)
    requires Inv(s, bounds, grace)
    ensures Inv(RunFrom(s, bounds, grace, events), bounds, grace)
    decreases |events|
  {
    if |events| > 0 {
      HandleKeeps(s, bounds, grace, events[0].now, events[0].e);
      RunKeeps(Handle(s, bounds, grace, events[0].now, events[0].e), bounds, grace, events[1..]);
    }
  }

  function Booted(gen: string, now: nat): Sup {
    Sup(Begun(gen, now), gen, false, false, false, [], [])
  }

  /** Over every run: NetBird is launched only while the lease is held, so only when every loop
      has completed a step within its bound, the slack and the grace. */
  lemma LaunchMeansProgress(gen: string, boot: nat, c: Config, grace: nat, events: seq<Timed>, at: nat, lease: State, name: string)
    requires (at, lease) in RunFrom(Booted(gen, boot), LoopBounds(c), grace, events).launches && name in LoopBounds(c)
    ensures Held(lease, at) && lease.renewed.Some? && name in lease.renewed.v.loops
    ensures at < lease.renewed.v.loops[name] + LoopBounds(c)[name] + TRANSIT_SLACK + grace
  {
    hide LoopBounds;
    RunKeeps(Booted(gen, boot), LoopBounds(c), grace, events);
    HeldMeansProgress(lease, LoopBounds(c), grace, at, name);
  }

  // ---- a passed deadline is for good ----

  /** Times never go back, from a moment on. */
  predicate Monotone(from: nat, events: seq<Timed>) {
    && (forall i :: 0 <= i < |events| ==> from <= events[i].now)
    && (forall i, j :: 0 <= i < j < |events| ==> events[i].now <= events[j].now)
  }

  /** The generation's lease is over at a moment. */
  predicate Over(s: State, now: nat) {
    s.revoked || s.lapsed || now >= s.deadline
  }

  lemma OverStays(s: Sup, bounds: map<string, nat>, grace: nat, from: nat, now: nat, e: Event)
    requires Over(s.lease, from) && from <= now
    ensures var t := Handle(s, bounds, grace, now, e);
            Over(t.lease, now) && t.launches == s.launches && t.published == s.published
            && t.lease.lastSeq == s.lease.lastSeq && t.lease.lastStatusSeq == s.lease.lastStatusSeq && t.lease.gen == s.lease.gen
  {
  }

  /** Once the deadline has passed, whatever comes after: no renewal and no status of that
      generation is accepted, nothing is launched and nothing of the worker's is published. */
  lemma {:induction false} OverForGood(s: Sup, bounds: map<string, nat>, grace: nat, from: nat, events: seq<Timed>)
    requires Over(s.lease, from) && Monotone(from, events)
    ensures var t := RunFrom(s, bounds, grace, events);
            t.launches == s.launches && t.published == s.published
            && t.lease.lastSeq == s.lease.lastSeq && t.lease.lastStatusSeq == s.lease.lastStatusSeq && t.lease.gen == s.lease.gen
    decreases |events|
  {
    if |events| > 0 {
      var e := events[0];
      OverStays(s, bounds, grace, from, e.now, e.e);
      OverForGood(Handle(s, bounds, grace, e.now, e.e), bounds, grace, e.now, events[1..]);
    }
  }
}
