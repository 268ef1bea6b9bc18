/**
NetBird's launches in every interleaving: process creations that run outside the lock, the
cancellation of a launch, the close for good, and the check of what is left that the cleanup
waits for. Each action is one locked section, one atomic operation or one system call.
*/
module NetBird {

  /** Where a process creation is: admitted and not yet forked, forked and not yet attached,
      attached (late: the launch had been cancelled meanwhile), or about to end. */
  datatype Spawn = Admitted(launch: nat) | Forked(launch: nat, p: nat) | Attached(p: nat, late: bool) | Ending

  /** When a check began: after the close, after the cancellation of the launch, or before. */
  datatype Began = AfterClose | AfterCancel(launch: nat) | Early

  /** A check for what is left: the count of creations read, then the list copied and looked
      through. */
  datatype Check = NoCheck | Counted(began: Began) | Looking(began: Began, rest: seq<nat>) | Left | Gone(began: Began)

  datatype State = State(
    closed: bool,
    active: bool,
    stopping: bool,
    launch: nat,
    cancelled: set<nat>,
    procs: seq<nat>,
    pending: nat,
    spawns: map<nat, Spawn>,
    alive: set<nat>,
    created: set<nat>,
    killed: set<nat>,
    late: set<nat>,
    check: Check,
    cleaning: bool
  ) {
    /** A creation for the launch may begin. */
    predicate Admits(l: nat) {
      !closed && launch == l && l !in cancelled
    }
  }

  const INIT := State(false, false, false, 0, {}, [], 0, map[], {}, {}, {}, {}, NoCheck, false)

  datatype Action =
    | Start | Close | Stop | Stopped
    | Admit(id: nat, l: nat) | Fork(id: nat, p: nat) | ForkFails(id: nat) | Attach(id: nat) | KillLate(id: nat) | End(id: nat)
    | Kill(p: nat) | Die(p: nat)
    | Count | Copy | Look | Cleanup

  function Prune(procs: seq<nat>, alive: set<nat>): (kept: seq<nat>)
    ensures forall p :: p in kept <==> p in procs && p in alive
  {
    if |procs| == 0 then [] else (if procs[0] in alive then [procs[0]] else []) + Prune(procs[1..], alive)
  }

  function BeginsAt(s: State): Began {
    if s.closed then AfterClose else if s.launch in s.cancelled then AfterCancel(s.launch) else Early
  }

  /** One action; one that is not enabled changes nothing. */
  function Do(s: State, a: Action): State {
    match a
    case Start =>
      if s.closed || s.active || s.stopping then s
      else s.(procs := Prune(s.procs, s.alive), active := true, launch := s.launch + 1)
    case Close => s.(closed := true, cancelled := if s.launch > 0 then s.cancelled + {s.launch} else s.cancelled)
    case Stop =>
      if !s.active || s.stopping then s else s.(stopping := true, cancelled := s.cancelled + {s.launch})
    case Stopped => if s.stopping then s.(active := false, stopping := false) else s
    case Admit(id, l) =>
      if id in s.spawns || !s.Admits(l) then s
      else s.(pending := s.pending + 1, spawns := s.spawns[id := Admitted(l)])
    case Fork(id, p) =>
      if id in s.spawns && s.spawns[id].Admitted? && p !in s.created then
        s.(spawns := s.spawns[id := Forked(s.spawns[id].launch, p)], alive := s.alive + {p}, created := s.created + {p})
      else s
    case ForkFails(id) =>
      if id in s.spawns && s.spawns[id].Admitted? then s.(spawns := s.spawns[id := Ending]) else s
    case Attach(id) =>
      if id in s.spawns && s.spawns[id].Forked? then
        var p, late := s.spawns[id].p, !s.Admits(s.spawns[id].launch);
        s.(procs := s.procs + [p], spawns := s.spawns[id := Attached(p, late)], late := if late then s.late + {p} else s.late)
      else s
    case KillLate(id) =>
      if id in s.spawns && s.spawns[id].Attached? && s.spawns[id].late then
        s.(killed := s.killed + {s.spawns[id].p}, spawns := s.spawns[id := Ending])
      else s
    case End(id) =>
      if id in s.spawns && (s.spawns[id].Ending? || (s.spawns[id].Attached? && !s.spawns[id].late)) && s.pending > 0 then
        s.(pending := s.pending - 1, spawns := s.spawns - {id})
      else s
    case Kill(p) => if p in s.procs then s.(killed := s.killed + {p}) else s
    case Die(p) => s.(alive := s.alive - {p})
    case Count => s.(check := if s.pending > 0 then Left else Counted(BeginsAt(s)))
    case Copy => if s.check.Counted? then s.(check := Looking(s.check.began, s.procs)) else s
    case Look =>
      if !s.check.Looking? then s
      else if |s.check.rest| == 0 then s.(check := Gone(s.check.began))
      else if s.check.rest[0] in s.alive then s.(check := Left)
      else s.(check := Looking(s.check.began, s.check.rest[1..]))
    case Cleanup => if s.check == Gone(AfterClose) then s.(cleaning := true) else s
  }

  function Run(s: State, acts: seq<Action>): State
    decreases |acts|
  {
    if |acts| == 0 then s else Run(Do(s, acts[0]), acts[1..])
  }

  // ---- what every action keeps ----

  /** The creation holds the process in its hands: forked, not yet attached. */
  predicate Holds(s: State, id: nat, p: nat) {
    id in s.spawns && s.spawns[id].Forked? && s.spawns[id].p == p
  }

  /** The creation still has to kill the process. */
  predicate Owes(s: State, id: nat, p: nat) {
    id in s.spawns && s.spawns[id] == Attached(p, true)
  }

  /** Every process is tracked, or in the hands of a creation that is counted. */
  ghost predicate Tracked(s: State) {
    && s.pending == |s.spawns|
    && forall p :: p in s.alive ==> p in s.procs || exists id :: Holds(s, id, p)
  }

  /** Every child attached late has been killed, or is about to be by a counted creation. */
  ghost predicate LateKilled(s: State) {
    forall p :: p in s.late ==> p in s.killed || exists id :: Owes(s, id, p)
  }

  /** No creation is in flight and none may begin. */
  predicate Still(s: State) {
    !s.Admits(s.launch) && |s.spawns| == 0
  }

  /** What the check relied on when it began still holds. */
  predicate Current(s: State, b: Began) {
    b.AfterClose? || (b.AfterCancel? && s.launch == b.launch)
  }

  /** A check that began when nothing could be admitted has not missed a process. */
  predicate CheckSound(s: State) {
    match s.check
    case NoCheck => true
    case Left => true
    case Counted(b) => Grounded(s, b)
    case Looking(b, rest) => Grounded(s, b) && (Current(s, b) ==> forall p :: p in s.alive ==> p in rest)
    case Gone(b) => Grounded(s, b) && (Current(s, b) ==> s.alive == {})
  }

  predicate Grounded(s: State, b: Began) {
    && (b.AfterClose? ==> s.closed)
    && (b.AfterCancel? ==> b.launch in s.cancelled && b.launch <= s.launch)
    && (Current(s, b) ==> Still(s))
  }

  ghost predicate Inv(s: State) {
    && Tracked(s) && LateKilled(s) && CheckSound(s)
    && (s.cleaning ==> s.closed && NoProcess(s))
    && (forall l :: l in s.cancelled ==> l <= s.launch)
  }

  lemma EmptyMap<K, V>(m: map<K, V>)
    requires |m| == 0
    ensures forall k :: k !in m
  {
    assert m.Keys == {};
  }

  lemma InitInv()
    ensures Inv(INIT)
  {
  }

  /** Creations come and go one by one, and the count with them. */
  lemma KeysMove(s: State, a: Action)
    ensures var t := Do(s, a);
            || (t.spawns.Keys == s.spawns.Keys && t.pending == s.pending)
            || (a.Admit? && a.id !in s.spawns && t.spawns.Keys == s.spawns.Keys + {a.id} && t.pending == s.pending + 1)
            || (a.End? && a.id in s.spawns && t.spawns.Keys == s.spawns.Keys - {a.id} && t.pending == s.pending - 1)
  {
    match a
    case Admit(id, l) => PutKeys(s.spawns, id, Admitted(l));
    case Fork(id, p) =>
      if id in s.spawns && s.spawns[id].Admitted? {
        PutKeys(s.spawns, id, Forked(s.spawns[id].launch, p));
      }
    case ForkFails(id) => PutKeys(s.spawns, id, Ending);
    case Attach(id) =>
      if id in s.spawns && s.spawns[id].Forked? {
        PutKeys(s.spawns, id, Attached(s.spawns[id].p, !s.Admits(s.spawns[id].launch)));
      }
    case KillLate(id) => PutKeys(s.spawns, id, Ending);
    case End(id) => DropKeys(s.spawns, id);
    case _ =>
  }

  lemma PutKeys<K, V>(m: map<K, V>, k: K, v: V)
    ensures m[k := v].Keys == m.Keys + {k} && (k in m ==> m[k := v].Keys == m.Keys)
  {
  }

  lemma DropKeys<K, V>(m: map<K, V>, k: K)
    ensures (m - {k}).Keys == m.Keys - {k}
  {
  }

  lemma CountKept(s: State, a: Action)
    requires s.pending == |s.spawns|
    ensures Do(s, a).pending == |Do(s, a).spawns|
  {
    KeysMove(s, a);
    var t := Do(s, a);
    hide Do;
    assert |s.spawns| == |s.spawns.Keys| && |t.spawns| == |t.spawns.Keys|;
  }

  lemma ProcsKept(s: State, a: Action, p: nat)
    requires p in s.procs && p in s.alive
    ensures p in Do(s, a).procs
  {
  }

  lemma HoldKept(s: State, a: Action, id: nat, p: nat)
    requires Holds(s, id, p)
    ensures p in Do(s, a).procs || Holds(Do(s, a), id, p)
  {
  }

  lemma NewIsHeld(s: State, a: Action, p: nat)
    requires p !in s.alive && p in Do(s, a).alive
    ensures a.Fork? && Holds(Do(s, a), a.id, p)
  {
  }

  lemma TrackedKept(s: State, a: Action)
    requires Tracked(s)
    ensures Tracked(Do(s, a))
  {
    CountKept(s, a);
    var t := Do(s, a);
    hide Do, Holds;
    forall p | p in t.alive
      ensures p in t.procs || exists id :: Holds(t, id, p)
    {
      if p !in s.alive {
        NewIsHeld(s, a, p);
      } else if p in s.procs {
        ProcsKept(s, a, p);
      } else {
        var id :| Holds(s, id, p);
        HoldKept(s, a, id, p);
      }
    }
  }

  lemma OweKept(s: State, a: Action, id: nat, p: nat)
    requires Owes(s, id, p)
    ensures p in Do(s, a).killed || Owes(Do(s, a), id, p)
  {
  }

  lemma NewIsOwed(s: State, a: Action, p: nat)
    requires p !in s.late && p in Do(s, a).late
    ensures a.Attach? && Owes(Do(s, a), a.id, p)
  {
  }

  lemma {:induction false} KilledKept(s: State, a: Action)
    ensures s.killed <= Do(s, a).killed
  {
  }

  lemma LateKept(s: State, a: Action)
    requires LateKilled(s)
    ensures LateKilled(Do(s, a))
  {
    var t := Do(s, a);
    KilledKept(s, a);
    hide Do, Owes;
    forall p | p in t.late
      ensures p in t.killed || exists id :: Owes(t, id, p)
    {
      if p !in s.late {
        NewIsOwed(s, a, p);
      } else if p !in s.killed {
        var id :| Owes(s, id, p);
        OweKept(s, a, id, p);
      }
    }
  }

  lemma {:induction false} GroundsKept(s: State, a: Action, b: Began)
    requires Grounded(s, b)
    ensures Grounded(Do(s, a), b) && (Current(Do(s, a), b) ==> Current(s, b))
    ensures Current(Do(s, a), b) ==> Do(s, a).alive <= s.alive
  {
    if Current(s, b) {
      EmptyMap(s.spawns);
    }
  }

  predicate OfCheck(a: Action) {
    a.Count? || a.Copy? || a.Look?
  }

  lemma CheckSame(s: State, a: Action)
    requires !OfCheck(a)
    ensures Do(s, a).check == s.check
  {
  }

  lemma CheckKept(s: State, a: Action)
    requires Tracked(s) && CheckSound(s) && forall l :: l in s.cancelled ==> l <= s.launch
    ensures CheckSound(Do(s, a))
  {
    if OfCheck(a) {
      CheckMoves(s, a);
    } else {
      CheckSame(s, a);
      if s.check.Counted? || s.check.Looking? || s.check.Gone? {
        GroundsKept(s, a, s.check.began);
      }
      hide Do;
    }
  }

  lemma CheckMoves(s: State, a: Action)
    requires Tracked(s) && CheckSound(s) && OfCheck(a) && forall l :: l in s.cancelled ==> l <= s.launch
    ensures CheckSound(Do(s, a))
  {
    match a
    case Count =>
    case Copy => CopyMoves(s);
    case Look => LookMoves(s);
  }

  /** The list copied has every process: none is in the hands of a creation. */
  lemma CopyMoves(s: State)
    requires Tracked(s) && CheckSound(s)
    ensures CheckSound(Do(s, Copy))
  {
    if s.check.Counted? && Current(s, s.check.began) {
      EmptyMap(s.spawns);
    }
  }

  lemma LookMoves(s: State)
    requires CheckSound(s)
    ensures CheckSound(Do(s, Look))
  {
    if s.check.Looking? && |s.check.rest| > 0 {
      assert s.check.rest == [s.check.rest[0]] + s.check.rest[1..];
    }
  }

  lemma RestKept(s: State, a: Action)
    requires forall l :: l in s.cancelled ==> l <= s.launch
    ensures forall l :: l in Do(s, a).cancelled ==> l <= Do(s, a).launch
  {
  }

  lemma CleaningKept(s: State, a: Action)
    requires CheckSound(s) && (s.cleaning ==> s.closed && NoProcess(s))
    ensures Do(s, a).cleaning ==> Do(s, a).closed && NoProcess(Do(s, a))
  {
    if s.cleaning {
      NeverStep(s, a);
    }
  }

  lemma StepKeeps(s: State, a: Action)
    requires Inv(s)
    ensures Inv(Do(s, a))
  {
    TrackedKept(s, a);
    LateKept(s, a);
    CheckKept(s, a);
    RestKept(s, a);
    CleaningKept(s, a);
    hide Do, Tracked, LateKilled, CheckSound, NoProcess;
  }

  predicate NoProcess(s: State) {
    s.alive == {} && Still(s)
  }

  lemma NeverStep(s: State, a: Action)
    requires s.closed && NoProcess(s)
    ensures var t := Do(s, a); t.closed && NoProcess(t) && t.created == s.created
  {
    EmptyMap(s.spawns);
    hide NoProcess, Still;
    assert s.spawns == map[] && s.alive == {};
    assert Do(s, a).spawns == map[] && Do(s, a).alive == {};
    NoneLeft(Do(s, a));
  }

  lemma NoneLeft(s: State)
    requires s.closed && s.spawns == map[] && s.alive == {}
    ensures NoProcess(s)
  {
  }

  lemma {:induction false} RunKeeps(s: State, acts: seq<Action>)
    requires Inv(s)
    ensures Inv(Run(s, acts))
    decreases |acts|
  {
    if |acts| > 0 {
      StepKeeps(s, acts[0]);
      RunKeeps(Do(s, acts[0]), acts[1..]);
    }
  }

  // ---- the results, over every run ----

  lemma {:induction false} NeverAgain(s: State, more: seq<Action>)
    requires s.closed && NoProcess(s)
    ensures Run(s, more).closed && NoProcess(Run(s, more)) && Run(s, more).created == s.created
    decreases |more|
  {
    if |more| > 0 {
      NeverStep(s, more[0]);
      NeverAgain(Do(s, more[0]), more[1..]);
    }
  }

  /** A check that began after the close and found nothing: no NetBird process exists, and in
      whatever follows none is ever created. */
  lemma GoneForGood(acts: seq<Action>, more: seq<Action>)
    requires Run(INIT, acts).check == Gone(AfterClose)
    ensures Run(INIT, acts).alive == {}
    ensures Run(Run(INIT, acts), more).alive == {} && Run(Run(INIT, acts), more).created == Run(INIT, acts).created
  {
    InitInv();
    RunKeeps(INIT, acts);
    NeverAgain(Run(INIT, acts), more);
  }

  /** The cleanup never runs beside a NetBird process. */
  lemma CleanupAlone(acts: seq<Action>)
    ensures Run(INIT, acts).cleaning ==> Run(INIT, acts).alive == {}
  {
    InitInv();
    RunKeeps(INIT, acts);
  }

  /** Every process is tracked, or counted as pending; every child that came late is killed, or
      is still counted. */
  lemma NothingUnseen(acts: seq<Action>, p: nat)
    ensures var s := Run(INIT, acts);
            && (p in s.alive ==> p in s.procs || s.pending > 0)
            && (p in s.late ==> p in s.killed || s.pending > 0)
  {
    InitInv();
    RunKeeps(INIT, acts);
    var s := Run(INIT, acts);
    if s.pending == 0 {
      EmptyMap(s.spawns);
    }
  }

  /** A stop's check that began after the launch was cancelled is right until the next launch. */
  lemma GoneUntilStart(acts: seq<Action>)
    requires var s := Run(INIT, acts); s.check == Gone(AfterCancel(s.launch))
    ensures Run(INIT, acts).alive == {} && Run(INIT, acts).pending == 0
  {
    InitInv();
    RunKeeps(INIT, acts);
  }

  /** The order matters: a check that begins before the close can call a live process gone. */
  lemma EarlyCheckMisses()
    ensures var s := Run(INIT, [Start, Count, Admit(0, 1), Fork(0, 7), Copy, Look, Close]);
            s.check == Gone(Early) && s.alive == {7} && s.closed
  {
    var s1 := Do(INIT, Start);
    var s2 := Do(s1, Count);
    var s3 := Do(s2, Admit(0, 1));
    var s4 := Do(s3, Fork(0, 7));
    var s5 := Do(s4, Copy);
    var s6 := Do(s5, Look);
    var s7 := Do(s6, Close);
    assert Run(s6, [Close]) == s7;
    assert Run(s5, [Look, Close]) == s7;
    assert Run(s4, [Copy, Look, Close]) == s7;
    assert Run(s3, [Fork(0, 7), Copy, Look, Close]) == s7;
    assert Run(s2, [Admit(0, 1), Fork(0, 7), Copy, Look, Close]) == s7;
    assert Run(s1, [Count, Admit(0, 1), Fork(0, 7), Copy, Look, Close]) == s7;
  }

  // ---- the manager's locked sections ----

  class Manager {
    var closed: bool
    var active: bool
    var stopping: bool
    var launch: nat
    var cancelled: set<nat>
    var procs: seq<nat>
    var pending: nat
    /** Where the creations and the check are, and which processes live. */
    ghost var rest: State

    constructor ()
      ensures Whole() == INIT
    {
      closed, active, stopping, launch, cancelled, procs, pending := false, false, false, 0, {}, [], 0;
      rest := INIT;
    }

    ghost function Whole(): State
      reads this
    {
      rest.(closed := closed, active := active, stopping := stopping, launch := launch, cancelled := cancelled,
            procs := procs, pending := pending)
    }

    /** Forgets the processes that are gone, in place. */
    method PruneLocked(alive: set<nat>)
      modifies this`procs
      ensures procs == Prune(old(procs), alive)
    {
      var kept := [];
      for i := 0 to |procs|
        invariant procs == old(procs) && kept + Prune(procs[i..], alive) == Prune(procs, alive)
      {
        assert procs[i..][1..] == procs[i + 1..];
        var more := Prune(procs[i + 1..], alive);
        assert kept + ([procs[i]] + more) == kept + [procs[i]] + more;
        if procs[i] in alive {
          kept := kept + [procs[i]];
        }
      }
      procs := kept;
    }

    method Begin(alive: set<nat>) returns (ok: bool)
      requires alive == rest.alive
      modifies this
      ensures Whole() == Do(old(Whole()), Start)
      ensures ok <==> !old(closed || active || stopping)
    {
      ok := !(closed || active || stopping);
      if ok {
        PruneLocked(alive);
        active, launch := true, launch + 1;
      }
    }

    method CloseForGood()
      modifies this`closed, this`cancelled
      ensures Whole() == Do(old(Whole()), Close)
    {
      closed := true;
      if launch > 0 {
        cancelled := cancelled + {launch};
      }
    }

    method StopLaunch() returns (begun: bool)
      modifies this`stopping, this`cancelled
      ensures Whole() == Do(old(Whole()), Stop)
      ensures begun <==> old(active && !stopping)
    {
      begun := active && !stopping;
      if begun {
        stopping, cancelled := true, cancelled + {launch};
      }
    }

    /** Counts a creation in flight if the launch may still begin one. */
    method AdmitSpawn(id: nat, l: nat) returns (ok: bool)
      requires id !in rest.spawns
      modifies this`pending, this`rest
      ensures Whole() == Do(old(Whole()), Admit(id, l))
      ensures ok <==> old(Whole()).Admits(l)
    {
      ok := !closed && launch == l && l !in cancelled;
      if ok {
        pending := pending + 1;
        rest := rest.(spawns := rest.spawns[id := Admitted(l)]);
      }
    }

    /** Attaches a process just forked; a late one is to be killed. */
    method AttachSpawn(id: nat, l: nat, p: nat) returns (late: bool)
      requires id in rest.spawns && rest.spawns[id] == Forked(l, p)
      modifies this`procs, this`rest
      ensures Whole() == Do(old(Whole()), Attach(id))
      ensures late <==> !old(Whole()).Admits(l)
    {
      procs := procs + [p];
      late := closed || launch != l || l in cancelled;
      rest := rest.(spawns := rest.spawns[id := Attached(p, late)], late := if late then rest.late + {p} else rest.late);
    }
  }
}
