/**
The cached model of the kernel and the change notifications that keep it honest. The one queue
of notifications is read by looks, by the question whether somebody else changed something, and
by the read-back of rules, which throws away what it is not looking for. Runs are any sequence
of what the owner does and others do.
*/
module Watch {
  import opened Rtnl
  import opened Contract
  import opened Policy
  import opened Escape
  import opened Points

  datatype Answer = Ok | Exists | NotFound | Failed

  /** What a kernel offers, and whether anybody else changes it. */
  datatype Features = Features(alone: bool, detects: bool, readsRules: bool)

  type Gate = (State, State) -> bool

  /** The kernel, the model of it, whether a notification of somebody else's change is unread, and
      whether the operation's time is up. */
  datatype View = View(now: State, model: Opt<State>, unread: bool, over: bool)

  datatype Event =
    | Foreign(next: State)
    | Look(stable: bool)
    | ReadBack(drained: bool)
    | Ask(foreign: bool)
    | Own(req: Request, done: bool, ans: Answer)
    | Forget
    | Cut(forgot: bool)

  /** The model after a request: what a granted one does, nothing known of one that failed. */
  function ModelAfter(m: Opt<State>, req: Request, ans: Answer): Opt<State> {
    if m.None? then None
    else
      match req
      case AddRule(r) => if ans == Ok then Some(WithRule(m.v, r)) else if ans == Exists then m else None
      case PutRoute(rt) => if ans == Ok then Some(WithRoute(m.v, rt)) else None
      case _ => if ans == Ok then Some(Applied(m.v, req)) else None
  }

  function Step(v: View, e: Event): View {
    match e
    case Foreign(next) => v.(now := next.(spec := v.now.spec), unread := true)
    case Look(stable) => v.(model := if stable then Some(v.now) else None, unread := false)
    case ReadBack(drained) => v.(unread := v.unread && !drained)
    case Ask(foreign) => v.(model := if foreign then None else v.model, unread := false)
    case Own(req, done, ans) =>
      v.(now := if done then Applied(v.now, req) else v.now, model := ModelAfter(v.model, req, ans))
    case Forget => v.(model := None)
    case Cut(forgot) => v.(model := if forgot then None else v.model, unread := false, over := true)
  }

  function Played(v: View, es: seq<Event>): View {
    if |es| == 0 then v else Step(Played(v, es[..|es| - 1]), es[|es| - 1])
  }

  // ---- what can happen ----

  /** The kernel's answer to a request, and whether it took effect: an acknowledged one did. */
  predicate Fits(now: State, req: Request, done: bool, ans: Answer) {
    match req
    case AddRule(r) =>
      && ans != NotFound && (ans == Exists ==> Duplicate(now.rules.At(r.family), r))
      && (ans == Ok ==> done && !Duplicate(now.rules.At(r.family), r))
    case PutRoute(_) => (ans == Ok || ans == Failed) && (ans == Ok ==> done)
    case _ => ans != Exists && (ans == Ok ==> done) && (ans == NotFound ==> Applied(now, req) == now)
  }

  /** The model has just been taken from the kernel or found to be current. */
  predicate Fresh(es: seq<Event>) {
    |es| > 0 &&
    match es[|es| - 1]
    case Foreign(_) => Fresh(es[..|es| - 1])
    case Look(stable) => stable
    case Ask(foreign) => !foreign
    case _ => false
  }

  /** A deletion is judged on the model: it takes nothing out, or the gate lets it. */
  predicate Lets(gate: Gate, m: State, req: Request) {
    Applied(m, req) == m || gate(m, Applied(m, req))
  }

  predicate Legal(kind: Features, gate: Gate, es: seq<Event>, v: View, e: Event) {
    match e
    case Foreign(_) => !kind.alone
    case Look(_) => !v.over
    case ReadBack(_) => kind.readsRules && !v.over
    case Ask(foreign) => kind.detects && !v.over && v.model.Some? && foreign == v.unread
    case Own(req, done, ans) =>
      && !v.over && Fits(v.now, req, done, ans)
      && (req.Deletes() ==> Fresh(es) && v.model.Some? && Lets(gate, v.model.v, req))
    case Forget => true
    case Cut(_) => !v.over
  }

  predicate LegalRun(kind: Features, gate: Gate, v: View, es: seq<Event>) {
    |es| > 0 ==>
      var before := es[..|es| - 1];
      LegalRun(kind, gate, v, before) && Legal(kind, gate, before, Played(v, before), es[|es| - 1])
  }

  predicate Start(v: View) {
    v.model.None? && !v.over
  }

  lemma RunMore(kind: Features, gate: Gate, v: View, es: seq<Event>, e: Event)
    ensures Played(v, es + [e]) == Step(Played(v, es), e)
    ensures LegalRun(kind, gate, v, es + [e]) <==> LegalRun(kind, gate, v, es) && Legal(kind, gate, es, Played(v, es), e)
  {
    assert (es + [e])[..|es|] == es;
  }

  // ---- when the model is the kernel ----

  predicate Current(v: View) {
    v.model == Some(v.now)
  }

  /** The rules were read back since the last look. */
  predicate ReadSince(es: seq<Event>) {
    |es| > 0 &&
    match es[|es| - 1]
    case Look(_) => false
    case ReadBack(_) => true
    case _ => ReadSince(es[..|es| - 1])
  }

  /** The model is the kernel, unless a notification says otherwise or may have been thrown away. */
  predicate Known(es: seq<Event>, v: View) {
    v.model.Some? ==> v.model.v == v.now || v.unread || v.over || ReadSince(es)
  }

  lemma OwnFollows(now: State, req: Request, done: bool, ans: Answer)
    requires Fits(now, req, done, ans)
    ensures var m := ModelAfter(Some(now), req, ans); m.Some? ==> m.v == if done then Applied(now, req) else now
  {
  }

  lemma KnownStep(kind: Features, gate: Gate, es: seq<Event>, v: View, e: Event)
    requires Known(es, v) && Legal(kind, gate, es, v, e)
    ensures Known(es + [e], Step(v, e))
  {
    assert (es + [e])[..|es|] == es;
    if e.Own? && v.model.Some? {
      OwnFollows(v.now, e.req, e.done, e.ans);
    }
    hide Applied, ModelAfter, Fits, Lets, Fresh;
  }

  lemma {:induction false} KnownRun(kind: Features, gate: Gate, v: View, es: seq<Event>)
    requires Start(v) && LegalRun(kind, gate, v, es)
    ensures Known(es, Played(v, es))
    decreases |es|
  {
    if |es| > 0 {
      var before := es[..|es| - 1];
      assert es == before + [es[|es| - 1]];
      KnownRun(kind, gate, v, before);
      KnownStep(kind, gate, before, Played(v, before), es[|es| - 1]);
    }
  }

  /** The moments a deletion is judged from: a stable look, or the answer that nobody else changed
      anything. */
  predicate Judging(es: seq<Event>) {
    |es| > 0 && (es[|es| - 1] == Look(true) || es[|es| - 1] == Ask(false))
  }

  /** Whatever has happened: unless the rules were read back since the last look, the model a
      deletion is judged on is the kernel as it is. */
  lemma JudgedNow(kind: Features, gate: Gate, v: View, es: seq<Event>)
    requires Start(v) && LegalRun(kind, gate, v, es) && Judging(es)
    ensures !ReadSince(es) ==> Current(Played(v, es))
  {
    var before := es[..|es| - 1];
    KnownRun(kind, gate, v, before);
  }

  // ---- what the owner can tell ----

  predicate Quiet(es: seq<Event>) {
    forall e :: e in es ==> !e.Foreign?
  }

  /** An event as the owner sees it. */
  function Seen(e: Event): Event {
    match e
    case ReadBack(_) => ReadBack(true)
    case Own(req, _, ans) => Own(req, true, ans)
    case _ => e
  }

  /** A run as the owner sees it. */
  function Shown(es: seq<Event>): seq<Event> {
    if |es| == 0 then []
    else Shown(es[..|es| - 1]) + if es[|es| - 1].Foreign? then [] else [Seen(es[|es| - 1])]
  }

  lemma {:induction false} ShownRead(es: seq<Event>)
    ensures ReadSince(es) <==> ReadSince(Shown(es))
  {
    if |es| > 0 {
      var before, e := es[..|es| - 1], es[|es| - 1];
      ShownRead(before);
      if !e.Foreign? {
        assert (Shown(before) + [Seen(e)])[..|Shown(before)|] == Shown(before);
      } else {
        assert Shown(before) + [] == Shown(before);
      }
    }
  }

  lemma ShownMore(es: seq<Event>, e: Event)
    ensures Shown(es + [e]) == Shown(es) + if e.Foreign? then [] else [Seen(e)]
  {
    assert (es + [e])[..|es|] == es;
  }

  lemma {:induction false} ShownJoin(a: seq<Event>, b: seq<Event>)
    ensures Shown(a + b) == Shown(a) + Shown(b)
    decreases |b|
  {
    if |b| == 0 {
      assert a + b == a;
    } else {
      var init, e := b[..|b| - 1], b[|b| - 1];
      assert a + b == (a + init) + [e] && b == init + [e];
      ShownJoin(a, init);
      ShownMore(a + init, e);
      ShownMore(init, e);
    }
  }

  lemma {:induction false} QuietCurrent(kind: Features, gate: Gate, v: View, es: seq<Event>)
    requires Start(v) && LegalRun(kind, gate, v, es) && Quiet(es)
    ensures var w := Played(v, es); w.model.Some? ==> w.model.v == w.now && !w.unread
    decreases |es|
  {
    if |es| > 0 {
      var before, e := es[..|es| - 1], es[|es| - 1];
      QuietCurrent(kind, gate, v, before);
      var w := Played(v, before);
      if e.Own? {
        OwnFollows(w.now, e.req, e.done, e.ans);
      }
      hide Applied, ModelAfter, Fits, Lets, Fresh;
    }
  }

  lemma {:induction false} AloneIsQuiet(kind: Features, gate: Gate, v: View, es: seq<Event>)
    requires LegalRun(kind, gate, v, es) && kind.alone
    ensures Quiet(es)
    decreases |es|
  {
    if |es| > 0 {
      AloneIsQuiet(kind, gate, v, es[..|es| - 1]);
    }
  }

  /** Another world: the tunnel's interface has another number, as after its creation anew. */
  function Bump(s: State): State {
    s.(exitIdx := s.exitIdx + 1)
  }

  lemma BumpApplied(s: State, req: Request)
    ensures Applied(Bump(s), req) == Bump(Applied(s, req))
  {
  }

  lemma BumpFits(s: State, req: Request, done: bool, ans: Answer)
    ensures Fits(Bump(s), req, done, ans) <==> Fits(s, req, done, ans)
  {
    BumpApplied(s, req);
    hide Applied;
  }

  lemma BumpStep(kind: Features, gate: Gate, es: seq<Event>, es': seq<Event>, v: View, e: Event)
    requires Legal(kind, gate, es, v, e) && !e.Look? && !e.Foreign? && (Fresh(es) <==> Fresh(es'))
    ensures var v' := v.(now := Bump(v.now));
            Legal(kind, gate, es', v', e) && Step(v', e) == Step(v, e).(now := Bump(Step(v, e).now))
  {
    if e.Own? {
      BumpFits(v.now, e.req, e.done, e.ans);
      BumpApplied(v.now, e.req);
    }
    hide Applied, ModelAfter, Fits, Lets, Fresh, Bump;
  }

  /** What follows goes on just as well in the other world. */
  lemma {:induction false} Replay(kind: Features, gate: Gate, v: View, a: seq<Event>, a': seq<Event>, b: seq<Event>)
    requires LegalRun(kind, gate, v, a + b) && LegalRun(kind, gate, v, a')
    requires Played(v, a') == Played(v, a).(now := Bump(Played(v, a).now)) && !Fresh(a) && !Fresh(a')
    requires forall e :: e in b ==> !e.Look? && !e.Foreign?
    ensures LegalRun(kind, gate, v, a' + b) && Played(v, a' + b) == Played(v, a + b).(now := Bump(Played(v, a + b).now))
    ensures Fresh(a + b) <==> Fresh(a' + b)
    decreases |b|
  {
    hide Played, LegalRun, Legal, Step, Bump, Fresh;
    if |b| == 0 {
      assert a + b == a && a' + b == a';
    } else {
      var init, e := b[..|b| - 1], b[|b| - 1];
      assert e in b && forall x :: x in init ==> x in b;
      assert a + b == (a + init) + [e] && a' + b == (a' + init) + [e];
      RunMore(kind, gate, v, a + init, e);
      Replay(kind, gate, v, a, a', init);
      BumpStep(kind, gate, a + init, a' + init, Played(v, a + init), e);
      RunMore(kind, gate, v, a' + init, e);
      FreshMore(a + init, a' + init, e);
    }
  }

  lemma FreshMore(a: seq<Event>, a': seq<Event>, e: Event)
    requires Fresh(a) <==> Fresh(a')
    ensures Fresh(a + [e]) <==> Fresh(a' + [e])
  {
    assert (a + [e])[..|a|] == a && (a' + [e])[..|a'|] == a';
  }

  lemma {:induction false} LastRead(es: seq<Event>) returns (i: nat)
    requires ReadSince(es)
    ensures i < |es| && es[i].ReadBack? && forall j :: i < j < |es| ==> !es[j].Look?
  {
    var n := |es| - 1;
    if es[n].ReadBack? {
      i := n;
    } else {
      i := LastRead(es[..n]);
    }
  }

  lemma {:induction false} LegalPrefix(kind: Features, gate: Gate, v: View, a: seq<Event>, b: seq<Event>)
    requires LegalRun(kind, gate, v, a + b)
    ensures LegalRun(kind, gate, v, a)
    decreases |b|
  {
    if |b| == 0 {
      assert a + b == a;
    } else {
      assert (a + b)[..|a + b| - 1] == a + b[..|b| - 1];
      LegalPrefix(kind, gate, v, a, b[..|b| - 1]);
    }
  }

  /** A world in which the owner sees the same and somebody else acted just before a read-back. */
  lemma Unseen(kind: Features, gate: Gate, v: View, es: seq<Event>) returns (other: seq<Event>)
    requires Start(v) && LegalRun(kind, gate, v, es) && Quiet(es) && es != [] && es[|es| - 1] == Ask(false)
    requires !kind.alone && ReadSince(es)
    ensures LegalRun(kind, gate, v, other) && Shown(other) == Shown(es) && Judging(other) && !Current(Played(v, other))
  {
    var i := LastRead(es);
    var a, b := es[..i], es[i + 1..];
    var a1 := a + [es[i]];
    assert es == a1 + b;
    LegalPrefix(kind, gate, v, a1, b);
    RunMore(kind, gate, v, a, es[i]);
    EndsWithModel(kind, gate, v, es);
    HadModel(v, a1, b);
    var w := Played(v, a);
    QuietCurrent(kind, gate, v, a);
    var act := Foreign(Bump(w.now));
    var a2 := (a + [act]) + [ReadBack(true)];
    RunMore(kind, gate, v, a, act);
    RunMore(kind, gate, v, a + [act], ReadBack(true));
    assert Played(v, a2) == Played(v, a1).(now := Bump(Played(v, a1).now));
    assert a1[|a1| - 1].ReadBack? && a2[|a2| - 1].ReadBack?;
    hide Played, LegalRun, Bump;
    Replay(kind, gate, v, a1, a2, b);
    other := a2 + b;
    ShownSwap(a, es[i], act, b);
    QuietCurrent(kind, gate, v, es);
    BumpDiffers(Played(v, es).now);
  }

  /** Only a look gives a model. */
  lemma {:induction false} HadModel(v: View, a: seq<Event>, b: seq<Event>)
    requires Played(v, a + b).model.Some? && forall e :: e in b ==> !e.Look?
    ensures Played(v, a).model.Some?
    decreases |b|
  {
    if |b| == 0 {
      assert a + b == a;
    } else {
      var init := b[..|b| - 1];
      assert (a + b)[..|a + b| - 1] == a + init && (a + b)[|a + b| - 1] == b[|b| - 1];
      assert b[|b| - 1] in b && forall e :: e in init ==> e in b;
      HadModel(v, a, init);
    }
  }

  lemma ShownSwap(a: seq<Event>, read: Event, act: Event, b: seq<Event>)
    requires read.ReadBack? && act.Foreign?
    ensures Shown(((a + [act]) + [ReadBack(true)]) + b) == Shown((a + [read]) + b)
  {
    ShownMore(a, act);
    ShownMore(a + [act], ReadBack(true));
    ShownMore(a, read);
    ShownJoin(a + [read], b);
    ShownJoin((a + [act]) + [ReadBack(true)], b);
    assert Shown(a) + [] == Shown(a);
  }

  lemma EndsWithModel(kind: Features, gate: Gate, v: View, es: seq<Event>)
    requires LegalRun(kind, gate, v, es) && es != [] && es[|es| - 1] == Ask(false)
    ensures Played(v, es).model.Some?
  {
  }

  lemma BumpDiffers(s: State)
    ensures Bump(s) != s
  {
  }

  /** In every world in which the owner has seen this, the model is the kernel at this moment. */
  ghost predicate Certain(kind: Features, gate: Gate, v: View, es: seq<Event>) {
    forall other :: LegalRun(kind, gate, v, other) && Shown(other) == Shown(es) && Judging(other) ==> Current(Played(v, other))
  }

  /** What the owner has seen makes it certain that the model it judges a deletion on is the kernel
      if and only if nobody else changes the kernel or the rules were not read back since the last
      look. */
  lemma CertainIff(kind: Features, gate: Gate, v: View, es: seq<Event>)
    requires Start(v) && LegalRun(kind, gate, v, es) && Quiet(es) && Judging(es)
    ensures Certain(kind, gate, v, es) <==> kind.alone || !ReadSince(es)
  {
    hide Played, LegalRun, Current;
    ShownRead(es);
    if !kind.alone && ReadSince(es) {
      var other := Unseen(kind, gate, v, es);
    } else {
      forall other | LegalRun(kind, gate, v, other) && Shown(other) == Shown(es) && Judging(other)
        ensures Current(Played(v, other))
      {
        ShownRead(other);
        JudgedNow(kind, gate, v, other);
        if kind.alone {
          AloneCurrent(kind, gate, v, other);
        }
      }
    }
  }

  lemma AloneCurrent(kind: Features, gate: Gate, v: View, es: seq<Event>)
    requires Start(v) && LegalRun(kind, gate, v, es) && Judging(es) && kind.alone
    ensures Current(Played(v, es))
  {
    AloneIsQuiet(kind, gate, v, es);
    QuietCurrent(kind, gate, v, es);
  }

  lemma {:induction false} NoReads(kind: Features, gate: Gate, v: View, es: seq<Event>)
    requires LegalRun(kind, gate, v, es) && !kind.readsRules
    ensures !ReadSince(es)
    decreases |es|
  {
    if |es| > 0 {
      NoReads(kind, gate, v, es[..|es| - 1]);
    }
  }

  /** Every deletion of every run is judged on the kernel as it is. */
  ghost predicate AlwaysCurrent(kind: Features, gate: Gate, v: View) {
    forall es :: LegalRun(kind, gate, v, es) && Judging(es) ==> Current(Played(v, es))
  }

  /** So it is for a kernel nobody else changes, one that does not tell of changes, so that every
      deletion takes a look, and one whose rules cannot be read back alone; and for no other. */
  lemma AlwaysCurrentIff(kind: Features, gate: Gate, v: View)
    requires Start(v)
    ensures AlwaysCurrent(kind, gate, v) <==> kind.alone || !kind.detects || !kind.readsRules
  {
    if kind.alone || !kind.detects || !kind.readsRules {
      forall es | LegalRun(kind, gate, v, es) && Judging(es)
        ensures Current(Played(v, es))
      {
        JudgedNow(kind, gate, v, es);
        if kind.alone {
          AloneCurrent(kind, gate, v, es);
        } else if !kind.readsRules {
          NoReads(kind, gate, v, es);
        }
      }
    } else {
      var es := [Look(true)] + [ReadBack(true)] + [Ask(false)];
      ReadThenAsk(kind, gate, v);
      var other := Unseen(kind, gate, v, es);
    }
  }

  lemma ReadThenAsk(kind: Features, gate: Gate, v: View)
    requires Start(v) && kind.detects && kind.readsRules
    ensures var es := [Look(true)] + [ReadBack(true)] + [Ask(false)];
            LegalRun(kind, gate, v, es) && Quiet(es) && ReadSince(es)
  {
    assert [] + [Look(true)] == [Look(true)];
    RunMore(kind, gate, v, [], Look(true));
    RunMore(kind, gate, v, [Look(true)], ReadBack(true));
    var two := [Look(true)] + [ReadBack(true)];
    RunMore(kind, gate, v, two, Ask(false));
    assert (two + [Ask(false)])[..2] == two;
  }

  // ---- no packet escapes the owner ----

  /** Every request of the run is one the owner makes of its contract. */
  ghost predicate AllAsked(s: State, es: seq<Event>) {
    forall e :: e in es && e.Own? ==> Asked(s, e.req)
  }

  /** At every deletion of the run judged packets represent this one. */
  ghost predicate RunReaches(v: View, es: seq<Event>, p: Packet) {
    forall i :: 0 <= i < |es| && es[i].Own? && es[i].req.Deletes() ==>
      var s := Played(v, es[..i]).now;
      Represented(s, Applied(s, es[i].req), p) && Reached(s, Applied(s, es[i].req), p.dst)
  }

  ghost predicate Kept(s: State, level: Level, p: Packet, first: State) {
    Steady(s, level) && FamiliesRight(s, p.f) && Protected(s, p) && Held(s, level, p) && SameSetting(first, s)
  }

  lemma AskedAlike(s: State, s': State, req: Request)
    requires SameSetting(s, s') && Asked(s, req)
    ensures Asked(s', req)
  {
  }

  lemma OwnKeeps(gate: Gate, first: State, s: State, level: Level, req: Request, done: bool, p: Packet)
    requires (forall a, b :: gate(a, b) ==> GateApproves(a, b)) && InRange(p)
    requires Kept(s, level, p, first) && Asked(s, req)
    requires req.Deletes() ==>
               Lets(gate, s, req) && Represented(s, Applied(s, req), p) && Reached(s, Applied(s, req), p.dst)
    ensures Kept(if done then Applied(s, req) else s, level, p, first)
  {
    hide Steady, GateApproves, Held, Protected, Represented, Reached, InRange, FamiliesRight, Applied, Asked;
    var m := Move(req, done, []);
    RequestKeepsSteady(s, level, req);
    if !(req.Deletes() && Applied(s, req) == s) {
      assert req.Deletes() ==> gate(s, Applied(s, req));
      GatedMoveKeepsHeld(s, level, m, p);
      MoveKeepsSetting(s, level, m, p);
    }
  }

  /** A kernel only the owner changes, whose deletions the gate judges on its packets: through any
      run of the owner's requests, each granted, refused, lost or half done, a protected packet
      that is held at the start is held at every moment. */
  lemma {:induction false} HeldThroughout(kind: Features, gate: Gate, v: View, es: seq<Event>, level: Level, p: Packet)
    requires Start(v) && LegalRun(kind, gate, v, es) && Quiet(es) && AllAsked(v.now, es) && RunReaches(v, es, p)
    requires (forall a, b :: gate(a, b) ==> GateApproves(a, b)) && InRange(p)
    requires Steady(v.now, level) && FamiliesRight(v.now, p.f) && Protected(v.now, p) && Held(v.now, level, p)
    ensures Kept(Played(v, es).now, level, p, v.now)
    decreases |es|
  {
    hide Steady, GateApproves, Held, Protected, Represented, Reached, InRange, FamiliesRight, Applied, Asked, Lets, Kept, ModelAfter, Fits, Fresh, SameSetting;
    if |es| == 0 {
      FirstKept(v.now, level, p);
    } else {
      var before, e := es[..|es| - 1], es[|es| - 1];
      var w := Played(v, before);
      ReachesPrefix(v, es, p);
      HeldThroughout(kind, gate, v, before, level, p);
      if e.Own? {
        QuietCurrent(kind, gate, v, before);
        KeptSetting(w.now, level, p, v.now);
        assert e in es && es[|es| - 1].Own?;
        AskedAlike(v.now, w.now, e.req);
        OwnKeeps(gate, v.now, w.now, level, e.req, e.done, p);
      }
    }
  }

  lemma FirstKept(s: State, level: Level, p: Packet)
    requires Steady(s, level) && FamiliesRight(s, p.f) && Protected(s, p) && Held(s, level, p)
    ensures Kept(s, level, p, s)
  {
    hide Steady, FamiliesRight, Protected, Held;
  }

  lemma KeptSetting(s: State, level: Level, p: Packet, first: State)
    requires Kept(s, level, p, first)
    ensures SameSetting(first, s)
  {
  }

  lemma ReachesPrefix(v: View, es: seq<Event>, p: Packet)
    requires |es| > 0 && RunReaches(v, es, p)
    ensures RunReaches(v, es[..|es| - 1], p)
  {
    hide Represented, Reached, Applied, Played;
    var before := es[..|es| - 1];
    forall i | 0 <= i < |before|
      ensures before[..i] == es[..i] && before[i] == es[i]
    {
    }
  }

  // ---- what a run adds ----

  /** The new events add no rule but these and replace no route. */
  ghost predicate OnlyAdds(was: seq<Event>, now: seq<Event>, rules: set<Rule>) {
    was <= now && forall i :: |was| <= i < |now| && now[i].Own? ==>
      !now[i].req.PutRoute? && (now[i].req.AddRule? ==> now[i].req.rule in rules)
  }

  lemma AddsJoin(a: seq<Event>, b: seq<Event>, c: seq<Event>, x: set<Rule>, y: set<Rule>, all: set<Rule>)
    requires OnlyAdds(a, b, x) && OnlyAdds(b, c, y) && x <= all && y <= all
    ensures OnlyAdds(a, c, all)
  {
  }

  /** The owner asked for nothing. */
  ghost predicate NoneOwn(was: seq<Event>, now: seq<Event>) {
    was <= now && forall i :: |was| <= i < |now| ==> !now[i].Own?
  }

  lemma NoneJoin(a: seq<Event>, b: seq<Event>, c: seq<Event>)
    requires NoneOwn(a, b) && NoneOwn(b, c)
    ensures NoneOwn(a, c)
  {
  }

  /** The new requests replace these routes and delete those, and nothing else. */
  ghost predicate OnlyRoutes(was: seq<Event>, now: seq<Event>, puts: set<Route>, drops: set<Route>) {
    was <= now && forall i :: |was| <= i < |now| && now[i].Own? ==>
      (now[i].req.PutRoute? && now[i].req.route in puts) || (now[i].req.DelRoute? && now[i].req.route in drops)
  }

  predicate PutLost(e: Event) {
    e.Own? && e.req.PutRoute? && e.ans != Ok
  }

  ghost predicate PutsLand(was: seq<Event>, now: seq<Event>) {
    forall i :: |was| <= i < |now| ==> !PutLost(now[i])
  }

  /** Once a replacement has not been granted, no route is asked to be deleted. */
  ghost predicate StopsOnLoss(was: seq<Event>, now: seq<Event>) {
    forall i, j :: |was| <= i < j < |now| && PutLost(now[i]) ==> !(now[j].Own? && now[j].req.DelRoute?)
  }

  lemma RoutesMore(a: seq<Event>, b: seq<Event>, c: seq<Event>, puts: set<Route>, drops: set<Route>, ps: set<Route>, ds: set<Route>)
    requires OnlyRoutes(a, b, puts, drops) && StopsOnLoss(a, b) && OnlyRoutes(b, c, ps, ds) && StopsOnLoss(b, c)
    requires ps <= puts && ds <= drops && (ds == {} || PutsLand(a, b))
    ensures OnlyRoutes(a, c, puts, drops) && StopsOnLoss(a, c)
    ensures PutsLand(a, b) && PutsLand(b, c) ==> PutsLand(a, c)
  {
    forall i | |a| <= i < |c|
      ensures i < |b| ==> c[i] == b[i]
    {
    }
  }

  lemma RoutesAreAsked(s: State, was: seq<Event>, now: seq<Event>, puts: set<Route>, drops: set<Route>)
    requires AllAsked(s, was) && OnlyRoutes(was, now, puts, drops) && forall rt :: rt in puts ==> OwnerRoute(s, rt)
    ensures AllAsked(s, now)
  {
    forall e | e in now && e.Own?
      ensures Asked(s, e.req)
    {
      var i :| 0 <= i < |now| && now[i] == e;
      if i < |was| {
        assert was[i] == e && e in was;
      }
    }
  }

  /** If those are the owner's rules, so is everything the run asks for. */
  lemma AddsAreAsked(s: State, was: seq<Event>, now: seq<Event>, rules: set<Rule>)
    requires AllAsked(s, was) && OnlyAdds(was, now, rules) && forall r :: r in rules ==> OwnerRule(s.spec.config, r.family, r)
    ensures AllAsked(s, now)
  {
    forall e | e in now && e.Own?
      ensures Asked(s, e.req)
    {
      var i :| 0 <= i < |now| && now[i] == e;
      if i < |was| {
        assert was[i] == e && e in was;
      }
    }
  }
}
