/**
The owner's requests to a kernel that may refuse, lose or half-do any of them, and may be
changed by others: the cached policy model every deletion is judged on, and the rebuild of
a priority behind protective copies. Every operation is a run of the machine in Watch.
*/
module Mutator {
  import opened Rtnl
  import opened Contract
  import opened Comparison
  import opened Copies
  import opened Policy
  import opened Escape
  import opened Repair
  import opened Watch

  /** A look at the kernel: held still for, not held still for, or not had at all. */
  datatype Outlook = Stable(seen: State) | Unstable(seen: State) | Unread

  class Kernel {
    /** An add the kernel acknowledges is installed. */
    const honest: bool
    /** Every request is granted and every look is stable. */
    const granting: bool
    /** Nobody else changes the kernel. */
    const alone: bool
    /** It can say whether somebody else changed something since its notifications were last read. */
    const detects: bool
    /** It can read one family's rules back as stably as a look. */
    const readsRules: bool

    var rules: Pair<seq<Rule>>
    var routes: Pair<map<nat, seq<Route>>>
    var live: Pair<seq<Addr>>
    var locals: Pair<seq<Addr>>
    var exitIdx: nat
    var overlayIdx: nat
    /** A notification of somebody else's change waits in the queue. */
    var unread: bool
    /** The operation's deadline has passed. */
    var over: bool
    /** Every state the rules have been in. */
    ghost var trace: seq<Pair<seq<Rule>>>

    constructor (rules: Pair<seq<Rule>>, honest: bool, granting: bool, alone: bool, detects: bool, readsRules: bool)
      requires granting ==> honest && alone
      ensures Sound() && this.rules == rules && !unread && !over
    {
      this.rules, this.routes := rules, Pair(map[], map[]);
      this.live, this.locals, this.exitIdx, this.overlayIdx := Pair([], []), Pair([], []), 0, 0;
      this.honest, this.granting, this.alone := honest, granting, alone;
      this.detects, this.readsRules := detects, readsRules;
      this.unread, this.over, this.trace := false, false, [rules];
    }

    ghost predicate Sound()
      reads this
    {
      granting ==> honest && alone && !over
    }

    /** The kernel as the policy model sees it. */
    function Seen(spec: Spec): State
      reads this
    {
      State(spec, rules, routes, live, locals, exitIdx, overlayIdx)
    }

    /** Only the rules may have changed since. */
    twostate predicate OnlyRules()
      reads this
    {
      routes == old(routes) && live == old(live) && locals == old(locals) && exitIdx == old(exitIdx)
      && overlayIdx == old(overlayIdx) && unread == old(unread) && over == old(over) && trace == old(trace) + [rules]
    }

    /** Nothing has changed since. */
    twostate predicate Same()
      reads this
    {
      rules == old(rules) && routes == old(routes) && live == old(live) && locals == old(locals)
      && exitIdx == old(exitIdx) && overlayIdx == old(overlayIdx) && trace == old(trace)
    }

    /** Somebody else may act, and their change is notified. */
    method Others() returns (ghost acted: bool)
      requires Sound()
      modifies this
      ensures Sound() && over == old(over) && old(trace) <= trace
      ensures acted ==> !alone && unread
      ensures !acted ==> Same() && unread == old(unread)
    {
      acted := false;
      if !alone {
        var act: bool := *;
        if act {
          rules, routes, live, locals := *, *, *, *;
          exitIdx, overlayIdx := *, *;
          unread, trace, acted := true, trace + [rules], true;
        }
      }
    }

    method AddRule(r: Rule) returns (ans: Answer)
      requires Sound()
      modifies this
      ensures Sound() && OnlyRules() && ans != NotFound
      ensures rules == old(rules) || (!Duplicate(old(rules).At(r.family), r) && rules == old(rules).With(r.family, Insert(old(rules).At(r.family), r)))
      ensures ans == Exists ==> Duplicate(old(rules).At(r.family), r) && rules == old(rules)
      ensures ans == Ok ==> !Duplicate(old(rules).At(r.family), r)
      ensures ans == Ok && honest ==> rules == old(rules).With(r.family, Insert(old(rules).At(r.family), r))
      ensures granting ==> ans != Failed
    {
      var refused, lost: bool := *, *;
      if Duplicate(rules.At(r.family), r) {
        ans := if refused && !granting then Failed else Exists;
      } else {
        ans := if refused && !granting then Failed else Ok;
        if !lost || (ans == Ok && honest) {
          rules := rules.With(r.family, Insert(rules.At(r.family), r));
        }
      }
      trace := trace + [rules];
    }

    method DelRule(r: Rule) returns (ans: Answer)
      requires Sound()
      modifies this
      ensures Sound() && OnlyRules() && ans != Exists
      ensures rules == old(rules) || rules == old(rules).With(r.family, DeleteRule(old(rules).At(r.family), r))
      ensures ans == Ok ==> rules == old(rules).With(r.family, DeleteRule(old(rules).At(r.family), r))
      ensures ans == Ok ==> FirstMatch(old(rules).At(r.family), r) < |old(rules).At(r.family)|
      ensures ans == NotFound ==> FirstMatch(old(rules).At(r.family), r) == |old(rules).At(r.family)| && rules == old(rules)
      ensures granting ==> ans != Failed
    {
      var refused, lost: bool := *, *;
      if FirstMatch(rules.At(r.family), r) == |rules.At(r.family)| {
        ans := if refused && !granting then Failed else NotFound;
      } else {
        ans := if refused && !granting then Failed else Ok;
        if !lost || ans == Ok {
          rules := rules.With(r.family, DeleteRule(rules.At(r.family), r));
        }
      }
      trace := trace + [rules];
    }

    method DelRulePriority(f: Family, p: nat) returns (ans: Answer)
      requires Sound()
      modifies this
      ensures Sound() && OnlyRules() && ans != Exists
      ensures rules == old(rules) || rules == old(rules).With(f, DeletePriority(old(rules).At(f), p))
      ensures ans == Ok ==> rules == old(rules).With(f, DeletePriority(old(rules).At(f), p))
      ensures ans == Ok ==> FirstAt(old(rules).At(f), p) < |old(rules).At(f)|
      ensures ans == NotFound ==> FirstAt(old(rules).At(f), p) == |old(rules).At(f)| && rules == old(rules)
      ensures granting ==> ans != Failed
    {
      var refused, lost: bool := *, *;
      if FirstAt(rules.At(f), p) == |rules.At(f)| {
        ans := if refused && !granting then Failed else NotFound;
      } else {
        ans := if refused && !granting then Failed else Ok;
        if !lost || ans == Ok {
          rules := rules.With(f, DeletePriority(rules.At(f), p));
        }
      }
      trace := trace + [rules];
    }

    /** Only the routes may have changed since. */
    twostate predicate OnlyRoutes()
      reads this
    {
      rules == old(rules) && live == old(live) && locals == old(locals) && exitIdx == old(exitIdx)
      && overlayIdx == old(overlayIdx) && unread == old(unread) && over == old(over) && trace == old(trace)
    }

    method ReplaceRoute(rt: Route) returns (ans: Answer)
      requires Sound()
      modifies this
      ensures Sound() && OnlyRoutes() && (ans == Ok || ans == Failed)
      ensures forall spec :: Seen(spec) == old(Seen(spec)) || Seen(spec) == WithRoute(old(Seen(spec)), rt)
      ensures ans == Ok ==> forall spec :: Seen(spec) == WithRoute(old(Seen(spec)), rt)
      ensures granting ==> ans == Ok
    {
      var refused, lost: bool := *, *;
      ans := if refused && !granting then Failed else Ok;
      if (!lost || ans == Ok) && rt.table in routes.At(rt.family) {
        routes := routes.With(rt.family, routes.At(rt.family)[rt.table := ReplaceIn(routes.At(rt.family)[rt.table], rt)]);
      }
    }

    method DelRoute(rt: Route) returns (ans: Answer)
      requires Sound()
      modifies this
      ensures Sound() && OnlyRoutes() && ans != Exists
      ensures forall spec :: Seen(spec) == old(Seen(spec)) || Seen(spec) == WithoutRoute(old(Seen(spec)), rt)
      ensures ans == Ok ==> forall spec :: Seen(spec) == WithoutRoute(old(Seen(spec)), rt)
      ensures ans == NotFound ==> forall spec :: Seen(spec) == old(Seen(spec)) == WithoutRoute(old(Seen(spec)), rt)
      ensures granting ==> ans != Failed
    {
      var refused, lost: bool := *, *;
      if rt.table !in routes.At(rt.family) || DeleteIn(routes.At(rt.family)[rt.table], rt) == routes.At(rt.family)[rt.table] {
        ans := if refused && !granting then Failed else NotFound;
        forall spec
          ensures Seen(spec) == WithoutRoute(Seen(spec), rt)
        {
          NoRouteThere(Seen(spec), rt);
        }
      } else {
        ans := if refused && !granting then Failed else Ok;
        if !lost || ans == Ok {
          routes := routes.With(rt.family, routes.At(rt.family)[rt.table := DeleteIn(routes.At(rt.family)[rt.table], rt)]);
        }
      }
    }

    /** What reading the notifications can do: they are read, left, or the time runs out. */
    twostate predicate Drained()
      reads this
    {
      (!unread || unread == old(unread)) && (over == old(over) || (over && !unread))
    }

    /** A stable look shows the kernel as it is, with every notification read. */
    method Take(spec: Spec) returns (look: Outlook)
      requires Sound()
      modifies this`unread, this`over
      ensures Sound() && Drained()
      ensures look.Stable? ==> look.seen == Seen(spec) && !unread && !over
      ensures old(over) ==> look.Unread? && unread == old(unread)
      ensures granting ==> look.Stable?
    {
      var held, read, drained, late: bool := *, *, *, *;
      if over {
        return Unread;
      }
      if held || granting {
        look, unread := Stable(Seen(spec)), false;
      } else if read {
        var any: State := *;
        look, unread := Unstable(any), unread && !drained;
      } else {
        look, over, unread := Unread, late, unread && !drained && !late;
      }
    }

    /** One family's rules, if the kernel held still for it. It reads the notifications, and drops
        what is not about rules, and what came before it. */
    method RulesStable(f: Family) returns (stable: bool, have: seq<Rule>)
      requires Sound()
      modifies this`unread, this`over
      ensures Sound() && Drained()
      ensures stable ==> have == rules.At(f) && !unread && !over
      ensures old(over) ==> !stable && unread == old(unread)
      ensures granting ==> stable
    {
      var held, drained, late: bool := *, *, *;
      if over {
        return false, [];
      }
      if held || granting {
        unread := false;
        return true, rules.At(f);
      }
      stable, have := false, *;
      over, unread := late, unread && !drained && !late;
    }

    /** Whether somebody else changed something since the notifications were last read. */
    method ForeignChange() returns (foreign: bool, err: bool)
      requires Sound()
      modifies this`unread, this`over
      ensures Sound() && Drained()
      ensures !err ==> foreign == old(unread) && !unread && !over
      ensures err && over == old(over) ==> unread == old(unread)
      ensures old(over) ==> err
      ensures granting ==> !err
    {
      var failed, late: bool := *, *;
      if over || (failed && !granting) {
        foreign, err := false, true;
        if late && !over {
          unread, over := false, true;
        }
        return;
      }
      foreign, err, unread := unread, false, false;
    }
  }

  lemma NoRouteThere(s: State, rt: Route)
    requires !s.Known(rt.family, rt.table) || DeleteIn(s.Table(rt.family, rt.table), rt) == s.Table(rt.family, rt.table)
    ensures WithoutRoute(s, rt) == s
  {
    var m := s.routes.At(rt.family);
    if rt.table in m {
      assert m[rt.table := m[rt.table]] == m;
      assert s.routes.With(rt.family, m) == s.routes;
    }
  }

  /** What the gate says of a deletion: refused, nothing there to delete, or approved. */
  datatype Verdict = Refused | Nothing(before: State) | Approved(before: State, after: State)

  lemma SpecApart(s: State, spec: Spec, req: Request)
    ensures Applied(s.(spec := spec), req) == Applied(s, req).(spec := spec)
    ensures req.AddRule? ==> WithRule(s.(spec := spec), req.rule) == WithRule(s, req.rule).(spec := spec)
    ensures req.PutRoute? ==> WithRoute(s.(spec := spec), req.route) == WithRoute(s, req.route).(spec := spec)
  {
  }

  /** An answered addition is a legal event, and the model follows. */
  lemma AddStep(kind: Features, gate: Gate, es: seq<Event>, w: View, now: State, r: Rule, ans: Answer)
    requires !w.over && ans != NotFound
    requires now == w.now || (!Duplicate(w.now.rules.At(r.family), r) && now == WithRule(w.now, r))
    requires ans == Exists ==> Duplicate(w.now.rules.At(r.family), r) && now == w.now
    requires ans == Ok ==> !Duplicate(w.now.rules.At(r.family), r) && now == WithRule(w.now, r)
    ensures var e := Own(Request.AddRule(r), ans == Ok || now != w.now, ans);
            Legal(kind, gate, es, w, e) && Step(w, e) == w.(now := now, model := ModelAfter(w.model, e.req, ans))
  {
    hide WithRule, Duplicate;
  }

  lemma PutStep(kind: Features, gate: Gate, es: seq<Event>, w: View, now: State, rt: Route, ans: Answer)
    requires !w.over && (ans == Ok || ans == Failed) && (now == w.now || now == WithRoute(w.now, rt))
    requires ans == Ok ==> now == WithRoute(w.now, rt)
    ensures var e := Own(PutRoute(rt), ans == Ok || now != w.now, ans);
            Legal(kind, gate, es, w, e) && Step(w, e) == w.(now := now, model := ModelAfter(w.model, e.req, ans))
  {
    hide WithRoute;
  }

  /** An answered deletion that was judged is a legal event, and the model follows. */
  lemma DelStep(kind: Features, gate: Gate, es: seq<Event>, w: View, now: State, req: Request, ans: Answer)
    requires req.Deletes() && !w.over && ans != Exists && Fresh(es) && w.model.Some? && Lets(gate, w.model.v, req)
    requires now == w.now || now == Applied(w.now, req)
    requires ans == Ok ==> now == Applied(w.now, req)
    requires ans == NotFound ==> Applied(w.now, req) == w.now == now
    ensures var e := Own(req, ans == Ok || now != w.now, ans);
            Legal(kind, gate, es, w, e) && Step(w, e) == w.(now := now, model := ModelAfter(w.model, req, ans))
  {
    hide Applied, Fresh;
  }

  class Transaction {
    const k: Kernel
    const spec: Spec
    /** The policy check: the change opens no escape. */
    const gate: (State, State) -> bool
    /** Addresses the transaction is moving away from. */
    const retiring: set<Addr>
    /** A stable look with this operation's own changes; None when unknown. */
    var model: Opt<State>
    /** The kernel at the start, and all that has happened since. */
    ghost const begun: View
    ghost var log: seq<Event>

    constructor (k: Kernel, spec: Spec, gate: (State, State) -> bool, retiring: set<Addr>)
      requires k.Sound() && !spec.config.IsGluetunSidecar() && !k.over
      ensures Valid() && this.k == k && this.spec == spec && model.None? && this.retiring == retiring
      ensures this.gate == gate && log == [] && begun == View(k.Seen(Judged()), None, k.unread, false)
    {
      this.k, this.spec, this.gate, this.retiring, this.model := k, spec, gate, retiring, None;
      this.log := [];
      this.begun := View(k.Seen(spec.(returnPath := Pair(KeptOf(spec.returnPath.v4, retiring), KeptOf(spec.returnPath.v6, retiring)))), None, k.unread, false);
    }

    /** The contract deletions are judged on: without the addresses the transaction moves away from. */
    function Judged(): Spec {
      spec.(returnPath := Pair(KeptOf(spec.returnPath.v4, retiring), KeptOf(spec.returnPath.v6, retiring)))
    }

    ghost predicate Agrees(m: State)
      reads k
    {
      m == k.Seen(m.spec)
    }

    ghost function KindOf(): Features {
      Features(k.alone, k.detects, k.readsRules)
    }

    /** What the machine sees of the kernel and the model. */
    ghost function Whole(): View
      reads this, k
    {
      View(k.Seen(Judged()), if model.Some? then Some(model.v.(spec := Judged())) else None, k.unread, k.over)
    }

    /** All that has happened is a legal run of the machine, and has led here. */
    ghost predicate Recorded()
      reads this, k
    {
      LegalRun(KindOf(), gate, begun, log) && Played(begun, log) == Whole()
    }

    ghost predicate Valid()
      reads this, k
    {
      k.Sound() && !spec.config.IsGluetunSidecar() && Start(begun) && begun.now.spec == Judged() && (k.honest ==> Recorded())
    }

    /** What can have happened in between is somebody else's change, which is recorded. */
    twostate lemma OthersActed(acted: bool)
      requires old(Valid()) && k.Sound() && model == old(model) && k.over == old(k.over)
      requires acted ==> !k.alone && k.unread && log == old(log) + [Foreign(k.Seen(Judged()))]
      requires !acted ==> k.Same() && k.unread == old(k.unread) && log == old(log)
      ensures Valid()
    {
      RunMore(KindOf(), gate, begun, old(log), Foreign(k.Seen(Judged())));
    }

    /** One more event leads on to here. */
    twostate lemma Logged(e: Event)
      requires old(Valid()) && k.Sound() && log == old(log) + [e]
      requires k.honest ==> Legal(KindOf(), gate, old(log), old(Whole()), e) && Step(old(Whole()), e) == Whole()
      ensures Valid()
    {
      RunMore(KindOf(), gate, begun, old(log), e);
    }

    /** Lets others act. */
    method Pause()
      requires Valid()
      modifies k, this`log
      ensures Valid() && k.over == old(k.over) && old(k.trace) <= k.trace
      ensures k.alone ==> k.Same() && k.unread == old(k.unread) && log == old(log)
      ensures NoneOwn(old(log), log) && OnlyAdds(old(log), log, {}) && (Fresh(old(log)) ==> Fresh(log))
      ensures ReadSince(log) <==> ReadSince(old(log))
    {
      hide LegalRun, Played;
      ghost var acted := k.Others();
      if acted {
        log := log + [Foreign(k.Seen(Judged()))];
        assert log[..|log| - 1] == old(log);
      }
      OthersActed(acted);
    }

    /** A look at the kernel; the model is what a stable one showed, or nothing. */
    method TakeLook() returns (look: Outlook)
      requires Valid() && !k.over
      modifies this`model, this`log, k
      ensures Valid() && NoneOwn(old(log), log) && OnlyAdds(old(log), log, {}) && k.Same()
      ensures look.Stable? ==> model == Some(look.seen) && look.seen == k.Seen(spec) && !k.over && log == old(log) + [Look(true)]
      ensures !look.Stable? ==> model.None?
      ensures k.granting ==> look.Stable?
    {
      hide LegalRun, Played;
      look := k.Take(spec);
      model := if look.Stable? then Some(look.seen) else None;
      ghost var e := if look.Stable? then Look(true) else if k.over then Cut(true) else if k.unread then Forget else Look(false);
      log := log + [e];
      Logged(e);
    }

    method Snapshot() returns (look: Outlook)
      requires Valid()
      modifies this`model, this`log, k
      ensures Valid() && NoneOwn(old(log), log) && OnlyAdds(old(log), log, {})
      ensures look.Stable? ==> model == Some(look.seen) && look.seen == k.Seen(spec) && !k.over && Judging(log) && !ReadSince(log)
      ensures !look.Stable? ==> model.None? || model == old(model)
      ensures k.alone ==> k.Same()
      ensures k.granting ==> look.Stable?
    {
      hide Valid, LegalRun, Played;
      ValidSound();
      NothingAdded(log, {});
      var late: bool := *;
      if k.over || (late && !k.granting) {
        return Unread;
      }
      Pause();
      ghost var mid := log;
      look := TakeLook();
      NoneJoin(old(log), mid, log);
      AddsJoin(old(log), mid, log, {}, {}, {});
    }

    lemma ValidSound()
      requires Valid()
      ensures k.Sound()
    {
    }

    /** Asks whether somebody else changed something; the model is forgotten if so. */
    method AskForeign() returns (foreign: bool, err: bool)
      requires Valid() && !k.over && model.Some? && k.detects
      modifies this`model, this`log, k
      ensures Valid() && NoneOwn(old(log), log) && OnlyAdds(old(log), log, {}) && k.Same()
      ensures !err ==> !k.over && log == old(log) + [Ask(foreign)] && model == if foreign then None else old(model)
      ensures err ==> model == old(model)
      ensures k.granting ==> !err
    {
      hide LegalRun, Played;
      foreign, err := k.ForeignChange();
      if !err {
        if foreign {
          model := None;
        }
        log := log + [Ask(foreign)];
        Logged(Ask(foreign));
      } else if k.over {
        log := log + [Cut(false)];
        Logged(Cut(false));
      }
    }

    method Forgotten()
      requires Valid()
      modifies this`model, this`log
      ensures Valid() && NoneOwn(old(log), log) && OnlyAdds(old(log), log, {}) && model.None?
    {
      hide LegalRun, Played;
      model := None;
      log := log + [Forget];
      Logged(Forget);
    }

    /** Nothing can have been lost to a read-back: there was none since the last look, or there is
        nothing to lose. */
    ghost predicate Trusted()
      reads this, k
    {
      !ReadSince(log) || k.alone || !k.detects || !k.readsRules
    }

    /** What the machine says of a model just taken or just asked about. */
    lemma ModelIsKernel()
      requires Valid() && k.honest && Judging(log) && model.Some? && Trusted()
      ensures Agrees(model.v) && model.v.(spec := Judged()) == k.Seen(Judged())
    {
      hide LegalRun, Played;
      JudgedNow(KindOf(), gate, begun, log);
      AlwaysCurrentIff(KindOf(), gate, begun);
      assert Current(Played(begun, log));
    }

    /** The model of the kernel as it is now, or None. It is the kernel unless a read-back since the
        last look lost a notification. */
    method CurrentModel() returns (m: Opt<State>)
      requires Valid()
      modifies this`model, this`log, k
      ensures Valid() && NoneOwn(old(log), log) && OnlyAdds(old(log), log, {})
      ensures m.Some? ==> m == model && Judging(log) && !k.over
      ensures m.Some? && k.honest && Trusted() ==> Agrees(m.v)
      ensures k.alone ==> k.Same()
      ensures k.granting ==> m.Some?
    {
      hide Valid, LegalRun, Played;
      ValidSound();
      NothingAdded(log, {});
      if k.over {
        return None;
      }
      if model.Some? {
        if k.detects {
          Pause();
          ghost var mid := log;
          var foreign, err := AskForeign();
          NoneJoin(old(log), mid, log);
          AddsJoin(old(log), mid, log, {}, {}, {});
          ValidSound();
          if err {
            return None;
          }
          if !foreign {
            if k.honest && Trusted() {
              ModelIsKernel();
            }
            return model;
          }
        } else {
          Forgotten();
        }
      }
      ghost var mid := log;
      var look := Snapshot();
      NoneJoin(old(log), mid, log);
      AddsJoin(old(log), mid, log, {}, {}, {});
      m := if look.Stable? then model else None;
      if m.Some? && k.honest {
        ModelIsKernel();
      }
    }

    /** Judges a deletion on the model, with the rule or route taken out. */
    method Approve(req: Request) returns (v: Verdict)
      requires Valid() && req.Deletes()
      modifies this`model, this`log, k
      ensures Valid() && NoneOwn(old(log), log) && OnlyAdds(old(log), log, {})
      ensures !v.Refused? ==> model.Some? && v.before == model.v.(spec := Judged()) && Judging(log) && !k.over
      ensures !v.Refused? && k.honest && Trusted() ==> v.before == k.Seen(Judged())
      ensures v.Nothing? ==> Applied(v.before, req) == v.before
      ensures v.Approved? ==> v.after == Applied(v.before, req) != v.before && gate(v.before, v.after)
      ensures k.alone ==> k.Same()
      ensures k.granting && (forall a, b :: gate(a, b)) ==> !v.Refused?
    {
      hide Valid, LegalRun, Played, Applied;
      var m := CurrentModel();
      if m.None? {
        return Refused;
      }
      if k.honest && Trusted() {
        ModelIsKernel();
      }
      var before := m.v.(spec := Judged());
      var after := Applied(before, req);
      if after == before {
        v := Nothing(before);
      } else if gate(before, after) {
        v := Approved(before, after);
      } else {
        v := Refused;
      }
    }

    /** Records a deletion: the judged state when it was made, nothing known when it failed. */
    method AfterDelete(v: Verdict, ans: Answer)
      modifies this`model
      ensures model == if old(model).None? || ans != Ok then None else if v.Approved? then Some(v.after) else old(model)
    {
      if model.Some? {
        if ans != Ok {
          model := None;
        } else if v.Approved? {
          model := Some(v.after);
        }
      }
    }

    /** Records an add: a duplicate changed nothing, any other failure leaves the state unknown. */
    method AfterAdd(r: Rule, ans: Answer)
      modifies this`model
      ensures model == if old(model).None? || ans == Failed || ans == NotFound then None
                       else if ans == Ok then Some(WithRule(old(model).v, r)) else old(model)
    {
      if model.Some? {
        if ans == Ok {
          model := Some(WithRule(model.v, r));
        } else if ans != Exists {
          model := None;
        }
      }
    }

    method AfterRoute(rt: Route, ans: Answer)
      modifies this`model
      ensures model == if old(model).None? || ans != Ok then None else Some(WithRoute(old(model).v, rt))
    {
      if model.Some? {
        model := if ans == Ok then Some(WithRoute(model.v, rt)) else None;
      }
    }

    /** The model has been judged for a deletion. */
    ghost predicate Cleared(req: Request, v: Verdict)
      reads this
    {
      && req.Deletes() && Fresh(log) && model.Some? && !v.Refused? && v.before == model.v.(spec := Judged())
      && (v.Nothing? ==> Applied(v.before, req) == v.before)
      && (v.Approved? ==> v.after == Applied(v.before, req) && gate(v.before, v.after))
    }

    /** A request is sent, answered, and its answer recorded. */
    method SendAdd(r: Rule) returns (ans: Answer)
      requires Valid() && !k.over
      modifies this`model, this`log, k
      ensures Valid() && OnlyAdds(old(log), log, {r}) && k.OnlyRules() && ans != NotFound
      ensures k.rules == old(k.rules) || (!Duplicate(old(k.rules).At(r.family), r) && k.rules == old(k.rules).With(r.family, Insert(old(k.rules).At(r.family), r)))
      ensures ans == Exists ==> Duplicate(old(k.rules).At(r.family), r) && k.rules == old(k.rules)
      ensures ans == Ok ==> !Duplicate(old(k.rules).At(r.family), r)
      ensures ans == Ok && k.honest ==> k.rules == old(k.rules).With(r.family, Insert(old(k.rules).At(r.family), r))
      ensures k.granting ==> ans != Failed
    {
      hide LegalRun, Played, Legal, Step;
      ghost var w := Whole();
      ans := k.AddRule(r);
      AfterAdd(r, ans);
      ghost var e := Own(Request.AddRule(r), ans == Ok || k.rules != old(k.rules), ans);
      log := log + [e];
      if old(model).Some? {
        SpecApart(old(model).v, Judged(), e.req);
      }
      if k.honest {
        AddStep(KindOf(), gate, old(log), w, k.Seen(Judged()), r, ans);
      }
      Logged(e);
    }

    method SendPut(rt: Route) returns (ans: Answer)
      requires Valid() && !k.over
      modifies this`model, this`log, k
      ensures Valid() && (ans == Ok || ans == Failed)
      ensures k.granting ==> ans == Ok && k.Seen(Judged()) == WithRoute(old(k.Seen(Judged())), rt)
      ensures |log| == |old(log)| + 1 && old(log) <= log && log[|old(log)|].Own? && log[|old(log)|].req == PutRoute(rt) && log[|old(log)|].ans == ans
    {
      hide LegalRun, Played, Legal, Step, WithRoute;
      ghost var w := Whole();
      ans := k.ReplaceRoute(rt);
      AfterRoute(rt, ans);
      ghost var now := k.Seen(Judged());
      assert now == w.now || now == WithRoute(w.now, rt);
      ghost var e := Own(PutRoute(rt), ans == Ok || now != w.now, ans);
      log := log + [e];
      if old(model).Some? {
        SpecApart(old(model).v, Judged(), e.req);
      }
      PutStep(KindOf(), gate, old(log), w, now, rt, ans);
      Logged(e);
    }

    method SendDelRule(r: Rule, v: Verdict) returns (ans: Answer)
      requires Valid() && !k.over && Cleared(Request.DelRule(r), v)
      modifies this`model, this`log, k
      ensures Valid() && OnlyAdds(old(log), log, {}) && k.OnlyRules() && ans != Exists
      ensures k.rules == old(k.rules) || k.rules == old(k.rules).With(r.family, DeleteRule(old(k.rules).At(r.family), r))
      ensures ans == Ok ==> k.rules == old(k.rules).With(r.family, DeleteRule(old(k.rules).At(r.family), r))
      ensures ans == NotFound ==> FirstMatch(old(k.rules).At(r.family), r) == |old(k.rules).At(r.family)| && k.rules == old(k.rules)
      ensures k.granting ==> ans != Failed
    {
      hide LegalRun, Played, Legal, Step;
      ghost var w := Whole();
      NothingMatches(k.rules.At(r.family), r);
      ans := k.DelRule(r);
      AfterDelete(v, ans);
      ghost var e := Own(Request.DelRule(r), ans == Ok || k.rules != old(k.rules), ans);
      log := log + [e];
      SpecApart(v.before, Judged(), e.req);
      DelStep(KindOf(), gate, old(log), w, k.Seen(Judged()), e.req, ans);
      Logged(e);
    }

    method SendDelPriority(f: Family, p: nat, v: Verdict) returns (ans: Answer)
      requires Valid() && !k.over && Cleared(DelPriority(f, p), v)
      modifies this`model, this`log, k
      ensures Valid() && OnlyAdds(old(log), log, {}) && k.OnlyRules() && ans != Exists
      ensures k.rules == old(k.rules) || k.rules == old(k.rules).With(f, DeletePriority(old(k.rules).At(f), p))
      ensures ans == Ok ==> k.rules == old(k.rules).With(f, DeletePriority(old(k.rules).At(f), p))
      ensures ans == Ok ==> FirstAt(old(k.rules).At(f), p) < |old(k.rules).At(f)|
      ensures ans == NotFound ==> FirstAt(old(k.rules).At(f), p) == |old(k.rules).At(f)| && k.rules == old(k.rules)
      ensures k.granting ==> ans != Failed
    {
      hide LegalRun, Played, Legal, Step;
      ghost var w := Whole();
      NothingAt(k.rules.At(f), p);
      ans := k.DelRulePriority(f, p);
      AfterDelete(v, ans);
      ghost var e := Own(DelPriority(f, p), ans == Ok || k.rules != old(k.rules), ans);
      log := log + [e];
      SpecApart(v.before, Judged(), e.req);
      DelStep(KindOf(), gate, old(log), w, k.Seen(Judged()), e.req, ans);
      Logged(e);
    }

    method SendDelRoute(rt: Route, v: Verdict) returns (ans: Answer)
      requires Valid() && !k.over && Cleared(Request.DelRoute(rt), v)
      modifies this`model, this`log, k
      ensures Valid() && OnlyAdds(old(log), log, {}) && ans != Exists
      ensures k.granting ==> ans != Failed && k.Seen(Judged()) == WithoutRoute(old(k.Seen(Judged())), rt)
      ensures |log| == |old(log)| + 1 && old(log) <= log && log[|old(log)|].Own? && log[|old(log)|].req == Request.DelRoute(rt)
    {
      hide LegalRun, Played, Legal, Step, WithoutRoute;
      ghost var w := Whole();
      ans := k.DelRoute(rt);
      AfterDelete(v, ans);
      ghost var now := k.Seen(Judged());
      assert now == w.now || now == WithoutRoute(w.now, rt);
      ghost var e := Own(Request.DelRoute(rt), ans == Ok || now != w.now, ans);
      log := log + [e];
      SpecApart(v.before, Judged(), e.req);
      DelStep(KindOf(), gate, old(log), w, now, e.req, ans);
      Logged(e);
    }

    /** Installs a rule; whether the kernel says it changed, and whether the request failed. */
    method AddRule(r: Rule) returns (changed: bool, err: bool)
      requires Valid()
      modifies this`model, this`log, k
      ensures Valid() && OnlyAdds(old(log), log, {r})
      ensures k.alone ==> Moved() && KeepsAll(old(k.rules).At(r.family), k.rules.At(r.family))
      ensures k.granting ==> !err && k.rules == old(k.rules).With(r.family, Rtnl.AddRule(old(k.rules).At(r.family), r))
      ensures k.granting ==> (changed <==> !Duplicate(old(k.rules).At(r.family), r))
    {
      hide Valid, OnlyAdds;
      ValidSound();
      NothingAdded(log, {r});
      var late: bool := *;
      if k.over || (late && !k.granting) {
        return false, true;
      }
      Pause();
      ghost var mid := log;
      InsertMembers(k.rules.At(r.family), r);
      var ans := SendAdd(r);
      ValidSound();
      AddsJoin(old(log), mid, log, {}, {r}, {r});
      changed, err := ans == Ok, ans == Failed;
    }

    /** The kernel has gone through at most one state more, its routes as they were. */
    twostate predicate Moved()
      reads k
    {
      && k.routes == old(k.routes)
      && ((k.rules == old(k.rules) && k.trace == old(k.trace)) || k.trace == old(k.trace) + [k.rules])
    }

    /** Removes the first rule that has every attribute of r, if the gate lets it. */
    method DelRule(r: Rule) returns (changed: bool, err: bool)
      requires Valid()
      modifies this`model, this`log, k
      ensures Valid() && OnlyAdds(old(log), log, {})
      ensures k.alone ==> Moved() && KeepsBut(old(k.rules).At(r.family), k.rules.At(r.family), r.priority)
      ensures k.granting && (forall a, b :: gate(a, b)) ==>
                !err && k.rules == old(k.rules).With(r.family, DeleteRule(old(k.rules).At(r.family), r))
    {
      hide Valid, OnlyAdds, LegalRun, Played, Applied, DeleteRule;
      ValidSound();
      NothingAdded(log, {});
      var late: bool := *;
      if k.over || (late && !k.granting) {
        return false, true;
      }
      var v := Approve(Request.DelRule(r));
      if v.Refused? {
        return false, true;
      }
      ghost var judged := log;
      Pause();
      ghost var mid := log;
      AddsJoin(old(log), judged, mid, {}, {}, {});
      DeleteKeeps(k.rules.At(r.family), r);
      NothingMatches(k.rules.At(r.family), r);
      var ans := SendDelRule(r, v);
      ValidSound();
      AddsJoin(old(log), mid, log, {}, {}, {});
      changed, err := ans == Ok, ans == Failed;
    }

    /** Removes the first rule at a priority, if the gate lets it; whether there was one. */
    method DelRulePriority(f: Family, p: nat) returns (gone: bool, err: bool)
      requires Valid()
      modifies this`model, this`log, k
      ensures Valid() && OnlyAdds(old(log), log, {})
      ensures k.alone ==> Moved() && KeepsBut(old(k.rules).At(f), k.rules.At(f), p)
      ensures k.granting && (forall a, b :: gate(a, b)) ==>
                !err && k.rules == old(k.rules).With(f, DeletePriority(old(k.rules).At(f), p))
      ensures k.granting && (forall a, b :: gate(a, b)) ==> (gone <==> FirstAt(old(k.rules).At(f), p) < |old(k.rules).At(f)|)
    {
      hide Valid, OnlyAdds, LegalRun, Played, Applied, DeletePriority;
      ValidSound();
      NothingAdded(log, {});
      var late: bool := *;
      if k.over || (late && !k.granting) {
        return false, true;
      }
      var v := Approve(DelPriority(f, p));
      if v.Refused? {
        return false, true;
      }
      ghost var judged := log;
      Pause();
      ghost var mid := log;
      AddsJoin(old(log), judged, mid, {}, {}, {});
      DeletePriorityKeeps(k.rules.At(f), p);
      NothingAt(k.rules.At(f), p);
      var ans := SendDelPriority(f, p, v);
      ValidSound();
      AddsJoin(old(log), mid, log, {}, {}, {});
      gone, err := ans == Ok, ans == Failed;
    }

    method ReplaceRoute(rt: Route) returns (err: bool)
      requires Valid()
      modifies this`model, this`log, k
      ensures Valid() && OnlyRoutes(old(log), log, {rt}, {}) && (!err ==> PutsLand(old(log), log))
      ensures k.granting ==> !err && k.Seen(Judged()) == WithRoute(old(k.Seen(Judged())), rt)
    {
      hide Valid;
      ValidSound();
      var late: bool := *;
      if k.over || (late && !k.granting) {
        return true;
      }
      Pause();
      var ans := SendPut(rt);
      err := ans != Ok;
    }

    method DelRoute(rt: Route) returns (changed: bool, err: bool)
      requires Valid()
      modifies this`model, this`log, k
      ensures Valid() && OnlyRoutes(old(log), log, {}, {rt})
      ensures k.granting && (forall a, b :: gate(a, b)) ==> !err && k.Seen(Judged()) == WithoutRoute(old(k.Seen(Judged())), rt)
    {
      hide Valid, LegalRun, Played, Applied;
      ValidSound();
      var late: bool := *;
      if k.over || (late && !k.granting) {
        return false, true;
      }
      var v := Approve(Request.DelRoute(rt));
      if v.Refused? {
        return false, true;
      }
      Pause();
      var ans := SendDelRoute(rt, v);
      changed, err := ans == Ok, ans == Failed;
    }

    /** The rules read back, with what that does to the notifications. */
    method ReadRules(f: Family) returns (stable: bool, have: seq<Rule>)
      requires Valid() && !k.over && k.readsRules
      modifies this`log, k
      ensures Valid() && OnlyAdds(old(log), log, {}) && k.Same()
      ensures stable ==> have == k.rules.At(f)
      ensures k.granting ==> stable
    {
      hide LegalRun, Played;
      stable, have := k.RulesStable(f);
      ghost var e := if k.over then Cut(false) else Event.ReadBack(!k.unread);
      log := log + [e];
      Logged(e);
    }

    /** Reads the kernel back: every rule is there exactly, on a look it held still for. */
    method ReadBack(f: Family, rs: seq<Rule>) returns (ok: bool)
      requires Valid()
      modifies this`model, this`log, k
      ensures Valid() && OnlyAdds(old(log), log, {})
      ensures ok ==> Confirmed(k.rules.At(f), rs)
      ensures k.alone ==> k.Same()
      ensures k.granting ==> (ok <==> Confirmed(k.rules.At(f), rs))
    {
      hide Valid, OnlyAdds;
      ValidSound();
      NothingAdded(log, {});
      if k.readsRules {
        var late: bool := *;
        if k.over || (late && !k.granting) {
          return false;
        }
        Pause();
        ghost var mid := log;
        var stable, have := ReadRules(f);
        AddsJoin(old(log), mid, log, {}, {}, {});
        ok := stable && Confirmed(have, rs);
      } else {
        var look := Snapshot();
        ok := look.Stable? && Confirmed(look.seen.rules.At(f), rs);
      }
    }

    /** Since the trace was n long, every wanted rule that was in force has been there or its
        copy one priority earlier has. */
    ghost predicate NoGap(n: nat, f: Family, start: seq<Rule>, want: seq<Rule>)
      requires AllPositive(want)
      reads k
    {
      n <= |k.trace| && forall i :: n <= i < |k.trace| ==> Covered(start, k.trace[i].At(f), want)
    }

    /** Puts the copies in one by one; which of them the kernel says are new. */
    method InstallCopies(f: Family, p: nat, want: seq<Rule>) returns (installed: seq<Rule>, ok: bool)
      requires Valid() && p > 0 && AllOf(want, f, p)
      modifies this`model, this`log, k
      ensures Valid() && OnlyAdds(old(log), log, CopySet(want))
      ensures k.alone ==> NoGap(|old(k.trace)|, f, old(k.rules).At(f), want) && old(k.trace) <= k.trace && k.routes == old(k.routes)
      ensures k.granting ==> ok && k.rules == old(k.rules).With(f, AddAll(old(k.rules).At(f), CopiesOf(want)))
      ensures k.granting ==> installed == Installed(old(k.rules).At(f), CopiesOf(want))
      ensures forall c :: c in installed ==> c.priority == p - 1 && c.family == f
    {
      hide Valid, OnlyAdds;
      ValidSound();
      NothingAdded(log, CopySet(want));
      var copies := CopiesOf(want);
      installed, ok := [], true;
      ghost var start := k.rules.At(f);
      for i := 0 to |want|
        invariant Valid() && ok && OnlyAdds(old(log), log, CopySet(want))
        invariant forall c :: c in installed ==> c.priority == p - 1 && c.family == f
        invariant k.alone ==> NoGap(|old(k.trace)|, f, start, want) && KeepsAll(start, k.rules.At(f))
        invariant k.alone ==> old(k.trace) <= k.trace && k.routes == old(k.routes)
        invariant k.granting ==> AddAll(k.rules.At(f), copies[i..]) == AddAll(start, copies)
        invariant k.granting ==> installed + Installed(k.rules.At(f), copies[i..]) == Installed(start, copies)
        invariant k.granting ==> k.rules == old(k.rules).With(f, k.rules.At(f))
      {
        var cp := want[i].(priority := p - 1);
        assert want[i] in want && copies[i..][0] == cp && copies[i..][1..] == copies[i + 1..];
        ghost var before, mid := k.rules.At(f), log;
        assert cp == CopyOf(want[i]) && cp in CopySet(want);
        var changed, err := AddRule(cp);
        AddsJoin(old(log), mid, log, CopySet(want), {cp}, CopySet(want));
        KeepsCovered(start, k.rules.At(f), want);
        if err {
          return installed, false;
        }
        if k.granting {
          InstalledStep(installed, before, copies[i..]);
        }
        if changed {
          installed := installed + [cp];
        }
      }
      KeepsCovered(start, k.rules.At(f), want);
    }

    /** Since the trace was n long, nothing of start has been lost but at priority q. */
    ghost predicate LostOnlyAt(n: nat, f: Family, start: seq<Rule>, q: nat)
      reads k
    {
      && n <= |k.trace| && KeepsBut(start, k.rules.At(f), q)
      && forall i :: n <= i < |k.trace| ==> KeepsBut(start, k.trace[i].At(f), q)
    }

    ghost predicate LostNothing(n: nat, f: Family, start: seq<Rule>)
      reads k
    {
      && n <= |k.trace| && KeepsAll(start, k.rules.At(f))
      && forall i :: n <= i < |k.trace| ==> KeepsAll(start, k.trace[i].At(f))
    }

    ghost predicate Granted()
      reads k
    {
      k.granting && forall a, b :: gate(a, b)
    }

    /** Deletes whatever is first at the priority, until nothing is or 32 are gone. */
    method ClearPriority(f: Family, p: nat) returns (ok: bool)
      requires Valid()
      modifies this`model, this`log, k
      ensures Valid() && OnlyAdds(old(log), log, {})
      ensures k.alone ==> LostOnlyAt(|old(k.trace)|, f, old(k.rules).At(f), p) && old(k.trace) <= k.trace && k.routes == old(k.routes)
      ensures Granted() ==> ok && k.rules == old(k.rules).With(f, Clear(old(k.rules).At(f), p, MAX_CLEAR))
    {
      hide Clear, Valid, DeletePriority, OnlyAdds;
      ValidSound();
      NothingAdded(log, {});
      ghost var start := k.rules.At(f);
      var i := 0;
      while i < MAX_CLEAR
        invariant 0 <= i <= MAX_CLEAR && Valid() && OnlyAdds(old(log), log, {})
        invariant k.alone ==> LostOnlyAt(|old(k.trace)|, f, start, p) && old(k.trace) <= k.trace && k.routes == old(k.routes)
        invariant Granted() ==> Clear(k.rules.At(f), p, MAX_CLEAR - i) == Clear(start, p, MAX_CLEAR)
        invariant Granted() ==> k.rules == old(k.rules).With(f, k.rules.At(f))
      {
        ghost var before, mid := k.rules.At(f), log;
        var gone, err := DelRulePriority(f, p);
        AddsJoin(old(log), mid, log, {}, {}, {});
        ClearOne(before, p, MAX_CLEAR - i);
        if err {
          return false;
        }
        if !gone {
          if Granted() {
            ClearNothing(before, p, MAX_CLEAR - i);
            ClearNothing(before, p, 1);
            ClearOne(before, p, 1);
          }
          break;
        }
        i := i + 1;
      }
      ClearOne(k.rules.At(f), p, 0);
      ok := true;
    }

    /** Adds the wanted rules, going on past failures. */
    method Refill(f: Family, want: seq<Rule>) returns (ok: bool)
      requires Valid() && forall w :: w in want ==> w.family == f
      modifies this`model, this`log, k
      ensures Valid() && OnlyAdds(old(log), log, RuleSet(want))
      ensures k.alone ==> LostNothing(|old(k.trace)|, f, old(k.rules).At(f)) && old(k.trace) <= k.trace && k.routes == old(k.routes)
      ensures Granted() ==> ok && k.rules == old(k.rules).With(f, AddAll(old(k.rules).At(f), want))
    {
      hide Valid, OnlyAdds;
      ValidSound();
      NothingAdded(log, RuleSet(want));
      ghost var start := k.rules.At(f);
      ok := true;
      for i := 0 to |want|
        invariant Valid() && (Granted() ==> ok) && OnlyAdds(old(log), log, RuleSet(want))
        invariant k.alone ==> LostNothing(|old(k.trace)|, f, start) && old(k.trace) <= k.trace && k.routes == old(k.routes)
        invariant Granted() ==> AddAll(k.rules.At(f), want[i..]) == AddAll(start, want)
        invariant Granted() ==> k.rules == old(k.rules).With(f, k.rules.At(f))
      {
        assert want[i] in want && want[i..][0] == want[i] && want[i..][1..] == want[i + 1..];
        ghost var mid := log;
        var changed, err := AddRule(want[i]);
        AddsJoin(old(log), mid, log, RuleSet(want), {want[i]}, RuleSet(want));
        if err {
          ok := false;
        }
      }
    }

    /** Takes the copies out again. */
    method RemoveCopies(f: Family, p: nat, installed: seq<Rule>)
      requires Valid() && forall c :: c in installed ==> c.family == f && c.priority == p
      modifies this`model, this`log, k
      ensures Valid() && OnlyAdds(old(log), log, {})
      ensures k.alone ==> LostOnlyAt(|old(k.trace)|, f, old(k.rules).At(f), p) && old(k.trace) <= k.trace && k.routes == old(k.routes)
      ensures Granted() ==> k.rules == old(k.rules).With(f, DeleteAll(old(k.rules).At(f), installed))
    {
      hide Valid, OnlyAdds;
      ValidSound();
      NothingAdded(log, {});
      ghost var start := k.rules.At(f);
      for i := 0 to |installed|
        invariant Valid() && OnlyAdds(old(log), log, {})
        invariant k.alone ==> LostOnlyAt(|old(k.trace)|, f, start, p) && old(k.trace) <= k.trace && k.routes == old(k.routes)
        invariant Granted() ==> DeleteAll(k.rules.At(f), installed[i..]) == DeleteAll(start, installed)
        invariant Granted() ==> k.rules == old(k.rules).With(f, k.rules.At(f))
      {
        assert installed[i] in installed && installed[i..][0] == installed[i] && installed[i..][1..] == installed[i + 1..];
        ghost var mid := log;
        var changed, err := DelRule(installed[i]);
        AddsJoin(old(log), mid, log, {}, {}, {});
      }
    }

    ghost predicate AllCovered(n: nat, f: Family, want: seq<Rule>)
      requires AllPositive(want)
      reads k
    {
      n <= |k.trace| && forall i :: n <= i < |k.trace| ==> InForce(k.trace[i].At(f), want)
    }

    /** Clears and refills the priority, with the copies in force. */
    method ClearRefill(f: Family, p: nat, want: seq<Rule>) returns (ok: bool)
      requires Valid() && p > 0 && AllOf(want, f, p) && Confirmed(k.rules.At(f), CopiesOf(want))
      modifies this`model, this`log, k
      ensures Valid() && OnlyAdds(old(log), log, RuleSet(want))
      ensures k.alone ==> AllCovered(|old(k.trace)|, f, want) && old(k.trace) <= k.trace && k.routes == old(k.routes)
      ensures ok ==> Confirmed(k.rules.At(f), want)
      ensures Granted() ==> k.rules == old(k.rules).With(f, AddAll(Clear(old(k.rules).At(f), p, MAX_CLEAR), want))
      ensures Granted() ==> (ok <==> Confirmed(k.rules.At(f), want))
    {
      hide Valid, OnlyAdds, AddAll, Clear, Confirmed;
      ValidSound();
      ghost var n, mid := |k.trace|, k.rules.At(f);
      ghost var all := RuleSet(want);
      var cleared := ClearPriority(f, p);
      ghost var l1 := log;
      AddsMore(old(log), l1, {}, all);
      if k.alone {
        CopiesHold(k.trace, n, f, mid, want, p);
      }
      if !cleared {
        return false;
      }
      ghost var cleaned := k.rules.At(f);
      ok := Refill(f, want);
      ghost var l2 := log;
      AddsJoin(old(log), l1, l2, all, all, all);
      if k.alone {
        RefillHolds(k.trace, n, f, mid, cleaned, want, p);
      }
      if ok {
        ok := ReadBack(f, want);
        AddsJoin(old(log), l2, log, all, {}, all);
      }
    }

    /** Clears and refills the priority, then takes out the copies, which are there. */
    method Swap(f: Family, p: nat, want: seq<Rule>, installed: seq<Rule>) returns (ok: bool)
      requires Valid() && p > 0 && AllOf(want, f, p)
      requires forall c :: c in installed ==> c.family == f && c.priority == p - 1
      requires Confirmed(k.rules.At(f), CopiesOf(want))
      modifies this`model, this`log, k
      ensures Valid() && OnlyAdds(old(log), log, RuleSet(want))
      ensures k.alone ==> AllCovered(|old(k.trace)|, f, want) && old(k.trace) <= k.trace && k.routes == old(k.routes)
      ensures k.alone && ok ==> Confirmed(k.rules.At(f), want)
      ensures Granted() ==>
                var k2 := AddAll(Clear(old(k.rules).At(f), p, MAX_CLEAR), want);
                k.rules == old(k.rules).With(f, if Confirmed(k2, want) then DeleteAll(k2, installed) else k2)
    {
      hide Valid, OnlyAdds, AddAll, Clear, DeleteAll, Confirmed, InForce;
      ValidSound();
      ok := ClearRefill(f, p, want);
      if ok {
        ghost var m, full, mid := |k.trace|, k.rules.At(f), log;
        RemoveCopies(f, p - 1, installed);
        AddsJoin(old(log), mid, log, RuleSet(want), {}, RuleSet(want));
        if k.alone {
          WantHolds(k.trace, m, f, full, want, p);
        }
        KeepsConfirmed(full, k.rules.At(f), want, p);
      }
    }

    /** Replaces everything at a priority with want behind copies one priority earlier. Nothing
        is deleted there before every copy is read back, and no copy before every wanted rule
        is. Whatever fails, each wanted rule in force at the start is there at every moment, or
        its copy is. */
    method Rebuild(f: Family, p: nat, want: seq<Rule>) returns (ok: bool)
      requires Valid() && AllOf(want, f, p) && (p > 0 || |want| == 0)
      modifies this`model, this`log, k
      ensures Valid() && OnlyAdds(old(log), log, RuleSet(want) + CopySet(want))
      ensures k.alone ==> old(k.trace) <= k.trace && k.routes == old(k.routes)
      ensures k.alone ==> NoGap(|old(k.trace)|, f, old(k.rules).At(f), want)
      ensures k.alone && ok ==> Confirmed(k.rules.At(f), want)
      ensures Granted() ==> k.rules == old(k.rules).With(f, Repair.Rebuild(old(k.rules).At(f), p, want))
    {
      hide Valid, OnlyAdds;
      ValidSound();
      ghost var all := RuleSet(want) + CopySet(want);
      NothingAdded(log, all);
      if |want| == 0 {
        return false;
      }
      var installed, added := InstallCopies(f, p, want);
      ghost var l1 := log;
      AddsMore(old(log), l1, CopySet(want), all);
      if !added {
        return false;
      }
      var behind := ReadBack(f, CopiesOf(want));
      ghost var l2 := log;
      AddsJoin(old(log), l1, l2, all, {}, all);
      if !behind {
        return false;
      }
      ok := Swap(f, p, want, installed);
      AddsJoin(old(log), l2, log, all, RuleSet(want), all);
    }

    /** A native change of 90-97 waits for the temporary guard to be read back, once. */
    method AwaitGuard(eff: Spec, f: Family, p: nat, read: bool) returns (ok: bool, nowRead: bool)
      requires Valid()
      modifies this`model, this`log, k
      ensures Valid() && OnlyAdds(old(log), log, {})
      ensures k.alone ==> k.Same()
      ensures k.granting ==> (ok <==> BehindGuard(eff, f, Progress(k.rules.At(f), {}, read), p))
      ensures ok ==> nowRead == (read || (eff.tempGuard.At(f) && InGuardRange(p)))
      ensures !ok ==> nowRead == read
    {
      hide Valid, OnlyAdds;
      ValidSound();
      NothingAdded(log, {});
      ok, nowRead := true, read;
      if eff.tempGuard.At(f) && InGuardRange(p) && !read {
        ok := ReadBack(f, [GuardRule(eff, f)]);
        nowRead := ok;
        assert forall g :: g in [GuardRule(eff, f)] <==> g == GuardRule(eff, f);
        assert GuardRule(eff, f) in [GuardRule(eff, f)];
      }
    }

    /** A removal that makes up for an addition of the plan waits until that is read back. */
    method AwaitDependents(eff: Spec, f: Family, actual: seq<Rule>, plan: seq<Action>, a: Rule) returns (go: bool)
      requires Valid()
      modifies this`model, this`log, k
      ensures Valid() && OnlyAdds(old(log), log, {})
      ensures k.alone ==> k.Same()
      ensures go && (exists d :: d in Dependents(eff, f, actual, a) && AddedNow(plan, d)) ==>
                Confirmed(k.rules.At(f), Dependents(eff, f, actual, a))
      ensures k.granting ==> (go <==> !Waits(eff, f, actual, plan, k.rules.At(f), a))
    {
      hide Valid, OnlyAdds;
      ValidSound();
      NothingAdded(log, {});
      var deps := Dependents(eff, f, actual, a);
      go := true;
      if exists d :: d in deps && AddedNow(plan, d) {
        go := ReadBack(f, deps);
      }
    }

    /** Removes one rule; where nothing is expected, whatever is first at its priority if the
        attributes are refused. */
    method Remove(eff: Spec, f: Family, actual: seq<Rule>, a: Rule) returns (err: bool)
      requires Valid() && a.family == f
      modifies this`model, this`log, k
      ensures Valid() && OnlyAdds(old(log), log, {})
      ensures k.alone ==> LostOnlyAt(|old(k.trace)|, f, old(k.rules).At(f), a.priority) && old(k.trace) <= k.trace && k.routes == old(k.routes)
      ensures Granted() ==> !err && k.rules == old(k.rules).With(f, DeleteRule(old(k.rules).At(f), a))
    {
      hide Valid, OnlyAdds, RulesAt, LeftReturnPath, DeleteRule, DeletePriority;
      ValidSound();
      ghost var start := k.rules.At(f);
      var changed;
      changed, err := DelRule(a);
      if err && eff.Owned(a.priority) && |RulesAt(eff, f, a.priority)| == 0 && |LeftReturnPath(eff, f, actual, a.priority)| == 0 {
        ghost var mid := log;
        var gone;
        gone, err := DelRulePriority(f, a.priority);
        AddsJoin(old(log), mid, log, {}, {}, {});
      }
    }

    /** Rebuilds a priority, once, behind the guard if it is to be. */
    method DoSub(eff: Spec, f: Family, actual: seq<Rule>, plan: seq<Action>, act: Action, rebuilt: set<nat>, read: bool)
        returns (nowRebuilt: set<nat>, nowRead: bool)
      requires Valid() && act.kind.Sub?
      modifies this`model, this`log, k
      ensures Valid() && OnlyAdds(old(log), log, ActAdds(eff, f, actual, act))
      ensures k.alone ==> old(k.trace) <= k.trace && k.routes == old(k.routes)
      ensures Granted() ==> Progress(k.rules.At(f), nowRebuilt, nowRead) ==
                            Carry(eff, f, actual, plan, Progress(old(k.rules).At(f), rebuilt, read), act)
      ensures Granted() ==> k.rules == old(k.rules).With(f, k.rules.At(f))
    {
      hide Valid, OnlyAdds, NoGap, Confirmed, Repair.Rebuild, GoesBack, InForce;
      ValidSound();
      ghost var all := ActAdds(eff, f, actual, act);
      NothingAdded(log, all);
      nowRebuilt, nowRead := rebuilt, read;
      if act.priority in rebuilt {
        return;
      }
      nowRebuilt := rebuilt + {act.priority};
      var behind;
      behind, nowRead := AwaitGuard(eff, f, act.priority, read);
      ghost var mid := log;
      AddsMore(old(log), mid, {}, all);
      if behind {
        BackOf(eff, f, actual, act.priority);
        var ok := Rebuild(f, act.priority, GoesBack(eff, f, actual, act.priority));
        AddsJoin(old(log), mid, log, all, all, all);
      }
    }

    /** Removes a rule, behind the guard and once its dependents are read back. */
    method DoDel(eff: Spec, f: Family, actual: seq<Rule>, plan: seq<Action>, act: Action, rebuilt: set<nat>, read: bool)
        returns (nowRead: bool)
      requires Valid() && act.kind.Del? && act.rule.family == f && act.rule.priority == act.priority
      modifies this`model, this`log, k
      ensures Valid() && OnlyAdds(old(log), log, {})
      ensures k.alone ==> old(k.trace) <= k.trace && k.routes == old(k.routes)
      ensures Granted() ==> Progress(k.rules.At(f), rebuilt, nowRead) ==
                            Carry(eff, f, actual, plan, Progress(old(k.rules).At(f), rebuilt, read), act)
      ensures Granted() ==> k.rules == old(k.rules).With(f, k.rules.At(f))
    {
      hide Valid, OnlyAdds, Confirmed, Dependents, DeleteRule, KeepsBut;
      ValidSound();
      var behind;
      behind, nowRead := AwaitGuard(eff, f, act.priority, read);
      ghost var mid := log;
      if behind {
        var go := AwaitDependents(eff, f, actual, plan, act.rule);
        ghost var later := log;
        AddsJoin(old(log), mid, later, {}, {}, {});
        if go {
          var err := Remove(eff, f, actual, act.rule);
          AddsJoin(old(log), later, log, {}, {}, {});
        }
      }
    }

    /** Carries out one action of a plan. */
    method ApplyOne(eff: Spec, f: Family, actual: seq<Rule>, plan: seq<Action>, act: Action, rebuilt: set<nat>, read: bool)
        returns (nowRebuilt: set<nat>, nowRead: bool)
      requires Valid() && act.rule.family == f && act.rule.priority == act.priority
      modifies this`model, this`log, k
      ensures Valid() && OnlyAdds(old(log), log, ActAdds(eff, f, actual, act))
      ensures k.alone ==> old(k.trace) <= k.trace && k.routes == old(k.routes)
      ensures k.alone && act.kind.Add? ==> LostNothing(|old(k.trace)|, f, old(k.rules).At(f))
      ensures Granted() ==> Progress(k.rules.At(f), nowRebuilt, nowRead) ==
                            Carry(eff, f, actual, plan, Progress(old(k.rules).At(f), rebuilt, read), act)
      ensures Granted() ==> k.rules == old(k.rules).With(f, k.rules.At(f))
    {
      hide Valid, OnlyAdds, Rtnl.AddRule;
      nowRebuilt, nowRead := rebuilt, read;
      match act.kind
      case Add => var changed, err := AddRule(act.rule);
      case Sub => nowRebuilt, nowRead := DoSub(eff, f, actual, plan, act, rebuilt, read);
      case Del => nowRead := DoDel(eff, f, actual, plan, act, rebuilt, read);
    }

    /** Carries out a family's rule actions in order, never stopping at a failure. Without
        removals nothing is taken out; with every request granted and every deletion approved
        the rules end as the plan says. */
    method Apply(eff: Spec, f: Family, actual: seq<Rule>, plan: seq<Action>, removals: bool)
      requires Valid() && forall a :: a in plan ==> a.rule.family == f && a.rule.priority == a.priority
      modifies this`model, this`log, k
      ensures Valid() && OnlyAdds(old(log), log, PlanAdds(eff, f, actual, plan))
      ensures k.alone && !removals ==> LostNothing(|old(k.trace)|, f, old(k.rules).At(f))
      ensures Granted() && removals ==>
                k.rules == old(k.rules).With(f, CarryAll(eff, f, actual, plan, Progress(old(k.rules).At(f), {}, false), plan).k)
      ensures Granted() && !removals ==> k.rules == old(k.rules).With(f, AddAll(old(k.rules).At(f), AddedBy(plan)))
      ensures k.alone ==> k.routes == old(k.routes)
    {
      hide Valid, OnlyAdds, ActAdds, Rtnl.AddRule, AddAll;
      ghost var all := PlanAdds(eff, f, actual, plan);
      NothingAdded(log, all);
      var rebuilt: set<nat>, read := {}, false;
      ghost var start := Progress(k.rules.At(f), {}, false);
      for i := 0 to |plan|
        invariant Valid() && OnlyAdds(old(log), log, all)
        invariant k.alone && !removals ==> LostNothing(|old(k.trace)|, f, start.k)
        invariant k.alone ==> old(k.trace) <= k.trace && k.routes == old(k.routes)
        invariant Granted() && removals ==>
                    CarryAll(eff, f, actual, plan, Progress(k.rules.At(f), rebuilt, read), plan[i..]) ==
                    CarryAll(eff, f, actual, plan, start, plan)
        invariant Granted() && !removals ==> AddAll(k.rules.At(f), AddedBy(plan[i..])) == AddAll(start.k, AddedBy(plan))
        invariant Granted() ==> k.rules == old(k.rules).With(f, k.rules.At(f))
      {
        AddedNext(k.rules.At(f), plan, i);
        assert plan[i] in plan && plan[i..][0] == plan[i] && plan[i..][1..] == plan[i + 1..];
        if removals || plan[i].kind.Add? {
          ghost var mid := log;
          rebuilt, read := ApplyOne(eff, f, actual, plan, plan[i], rebuilt, read);
          PlanHasAct(eff, f, actual, plan, plan[i]);
          AddsJoin(old(log), mid, log, all, ActAdds(eff, f, actual, plan[i]), all);
        }
      }
      NoneToAdd(k.rules.At(f));
    }
  }

  /** The rules a plan adds by themselves. */
  function AddedBy(plan: seq<Action>): seq<Rule> {
    if |plan| == 0 then [] else (if plan[0].kind.Add? then [plan[0].rule] else []) + AddedBy(plan[1..])
  }

  lemma AddedNext(k: seq<Rule>, plan: seq<Action>, i: nat)
    requires i < |plan|
    ensures AddAll(k, AddedBy(plan[i..])) ==
            AddAll(if plan[i].kind.Add? then Rtnl.AddRule(k, plan[i].rule) else k, AddedBy(plan[i + 1..]))
  {
    hide Rtnl.AddRule;
    var rest := AddedBy(plan[i + 1..]);
    assert plan[i..][0] == plan[i] && plan[i..][1..] == plan[i + 1..];
    if plan[i].kind.Add? {
      assert ([plan[i].rule] + rest)[0] == plan[i].rule && ([plan[i].rule] + rest)[1..] == rest;
    } else {
      assert [] + rest == rest;
    }
  }

  lemma NoneToAdd(k: seq<Rule>)
    ensures AddAll(k, AddedBy([])) == k
  {
  }

  /** A rule that was added is in, but for inversion, and what was in stays. */
  lemma {:induction false} AddedAreIn(k: seq<Rule>, rs: seq<Rule>)
    ensures forall r :: r in rs ==> Duplicate(AddAll(k, rs), r)
    ensures forall x :: x in k ==> x in AddAll(k, rs)
    decreases |rs|
  {
    hide Identity;
    if |rs| > 0 {
      InsertMembers(k, rs[0]);
      var next := Rtnl.AddRule(k, rs[0]);
      AddedAreIn(next, rs[1..]);
      var out := AddAll(k, rs);
      if !Duplicate(k, rs[0]) {
        assert rs[0] in next;
      }
      var x :| x in next && Identity(x) == Identity(rs[0]);
      assert x in out;
      assert rs == [rs[0]] + rs[1..];
    }
  }

  /** The addresses that are not being moved away from. */
  function KeptOf(addrs: seq<Addr>, retiring: set<Addr>): seq<Addr> {
    if |addrs| == 0 then [] else (if addrs[0] in retiring then [] else [addrs[0]]) + KeptOf(addrs[1..], retiring)
  }

  function RuleSet(rs: seq<Rule>): set<Rule> {
    set r | r in rs
  }

  function CopySet(rs: seq<Rule>): set<Rule> {
    set r | r in rs && r.priority > 0 :: CopyOf(r)
  }

  /** The rules an action may add. */
  function ActAdds(eff: Spec, f: Family, actual: seq<Rule>, act: Action): set<Rule> {
    match act.kind
    case Add => {act.rule}
    case Sub => RuleSet(GoesBack(eff, f, actual, act.priority)) + CopySet(GoesBack(eff, f, actual, act.priority))
    case Del => {}
  }

  function PlanAdds(eff: Spec, f: Family, actual: seq<Rule>, plan: seq<Action>): set<Rule> {
    set a, r | a in plan && r in ActAdds(eff, f, actual, a) :: r
  }

  lemma PlanHasAct(eff: Spec, f: Family, actual: seq<Rule>, plan: seq<Action>, act: Action)
    requires act in plan
    ensures ActAdds(eff, f, actual, act) <= PlanAdds(eff, f, actual, plan)
  {
    hide ActAdds;
  }

  lemma AddsMore(was: seq<Event>, now: seq<Event>, some: set<Rule>, all: set<Rule>)
    requires OnlyAdds(was, now, some) && some <= all
    ensures OnlyAdds(was, now, all)
  {
  }

  lemma NothingAdded(log: seq<Event>, rules: set<Rule>)
    ensures OnlyAdds(log, log, rules)
  {
  }

  lemma NothingMatches(k: seq<Rule>, r: Rule)
    ensures FirstMatch(k, r) == |k| ==> DeleteRule(k, r) == k
  {
  }

  lemma NothingAt(k: seq<Rule>, p: nat)
    ensures FirstAt(k, p) == |k| ==> DeletePriority(k, p) == k
  {
  }

  lemma {:induction false} LeftOf(eff: Spec, f: Family, actual: seq<Rule>, p: nat)
    ensures AllOf(LeftReturnPath(eff, f, actual, p), f, p)
    ensures LeftReturnPath(eff, f, actual, p) != [] ==> p > 0
  {
    if |actual| > 0 {
      LeftOf(eff, f, actual[..|actual| - 1], p);
    }
  }

  /** What goes back at a priority is of the family and at the priority, which is not 0. */
  lemma RuleStands(c: Config, f: Family, slot: Slot)
    ensures RuleOf(c, f, slot).family == f && RuleOf(c, f, slot).priority > 0
  {
  }

  lemma BackOf(eff: Spec, f: Family, actual: seq<Rule>, p: nat)
    ensures AllOf(GoesBack(eff, f, actual, p), f, p) && (GoesBack(eff, f, actual, p) != [] ==> p > 0)
  {
    hide RulesAt, RuleOf, SlotOf;
    if eff.Skipped(f, p) {
      LeftOf(eff, f, actual, p);
    } else {
      forall r | r in RulesAt(eff, f, p)
        ensures r.family == f && r.priority == p && p > 0
      {
        var slot := ExpectedSlot(eff, f, p, r);
        RuleStands(eff.config, f, slot);
      }
      if RulesAt(eff, f, p) != [] {
        assert RulesAt(eff, f, p)[0] in RulesAt(eff, f, p);
      }
    }
  }

  /** Each wanted rule is there, or its copy is. */
  predicate InForce(now: seq<Rule>, want: seq<Rule>)
    requires AllPositive(want)
  {
    forall w :: w in want ==> HasExact(now, w) || HasExact(now, CopyOf(w))
  }

  lemma KeepsConfirmed(mid: seq<Rule>, now: seq<Rule>, rs: seq<Rule>, p: nat)
    requires (forall r :: r in rs ==> r.priority == p) && Confirmed(mid, rs)
    ensures forall q :: q != p && KeepsBut(mid, now, q) ==> Confirmed(now, rs)
  {
    forall q | q != p && KeepsBut(mid, now, q)
      ensures Confirmed(now, rs)
    {
      forall r | r in rs
        ensures HasExact(now, r)
      {
        var x :| x in mid && x.priority == r.priority && Items(x) == Items(r);
        assert x in now;
      }
    }
  }

  /** States that lost rules only at the priority still have the copies. */
  lemma CopiesHold(trace: seq<Pair<seq<Rule>>>, n: nat, f: Family, mid: seq<Rule>, want: seq<Rule>, p: nat)
    requires p > 0 && AllOf(want, f, p) && Confirmed(mid, CopiesOf(want)) && n <= |trace|
    ensures forall i :: n <= i < |trace| && KeepsBut(mid, trace[i].At(f), p) ==> InForce(trace[i].At(f), want)
  {
    forall i | n <= i < |trace| && KeepsBut(mid, trace[i].At(f), p)
      ensures InForce(trace[i].At(f), want)
    {
      assert forall c :: c in CopiesOf(want) ==> c.priority == p - 1;
      KeepsConfirmed(mid, trace[i].At(f), CopiesOf(want), p - 1);
      ConfirmedInForce(trace[i].At(f), want);
    }
  }

  lemma RefillHolds(trace: seq<Pair<seq<Rule>>>, n: nat, f: Family, mid: seq<Rule>, cleaned: seq<Rule>, want: seq<Rule>, p: nat)
    requires p > 0 && AllOf(want, f, p) && Confirmed(mid, CopiesOf(want)) && n <= |trace|
    ensures KeepsBut(mid, cleaned, p) ==>
              forall i :: n <= i < |trace| && KeepsAll(cleaned, trace[i].At(f)) ==> InForce(trace[i].At(f), want)
  {
    if KeepsBut(mid, cleaned, p) {
      CopiesHold(trace, n, f, mid, want, p);
      assert forall i :: n <= i < |trace| && KeepsAll(cleaned, trace[i].At(f)) ==> KeepsBut(mid, trace[i].At(f), p);
    }
  }

  /** States that lost rules only one priority earlier still have the wanted rules. */
  lemma WantHolds(trace: seq<Pair<seq<Rule>>>, n: nat, f: Family, full: seq<Rule>, want: seq<Rule>, p: nat)
    requires p > 0 && AllOf(want, f, p) && Confirmed(full, want) && n <= |trace|
    ensures forall i :: n <= i < |trace| && KeepsBut(full, trace[i].At(f), p - 1) ==> InForce(trace[i].At(f), want)
  {
    forall i | n <= i < |trace| && KeepsBut(full, trace[i].At(f), p - 1)
      ensures InForce(trace[i].At(f), want)
    {
      KeepsConfirmed(full, trace[i].At(f), want, p);
      ConfirmedInForce(trace[i].At(f), want);
    }
  }

  lemma ConfirmedInForce(now: seq<Rule>, want: seq<Rule>)
    requires AllPositive(want)
    ensures Confirmed(now, CopiesOf(want)) ==> InForce(now, want)
    ensures Confirmed(now, want) ==> InForce(now, want)
  {
    if Confirmed(now, CopiesOf(want)) {
      forall w | w in want
        ensures HasExact(now, CopyOf(w))
      {
        var i :| 0 <= i < |want| && want[i] == w;
        assert CopiesOf(want)[i] in CopiesOf(want);
      }
    }
  }

  predicate AllPositive(want: seq<Rule>) {
    forall w :: w in want ==> w.priority > 0
  }

  /** The wanted rules: of one family, at one priority. */
  predicate AllOf(want: seq<Rule>, f: Family, p: nat) {
    forall w :: w in want ==> w.family == f && w.priority == p
  }

  predicate KeepsAll(start: seq<Rule>, now: seq<Rule>) {
    forall x :: x in start ==> x in now
  }

  /** Each wanted rule in force at the start is there, or its copy is. */
  predicate Covered(start: seq<Rule>, now: seq<Rule>, want: seq<Rule>)
    requires AllPositive(want)
  {
    forall w :: w in want && HasExact(start, w) ==> HasExact(now, w) || HasExact(now, CopyOf(w))
  }

  lemma KeepsCovered(start: seq<Rule>, now: seq<Rule>, want: seq<Rule>)
    requires AllPositive(want)
    ensures KeepsAll(start, now) ==> Covered(start, now, want)
  {
  }

  /** Nothing is lost but at one priority. */
  predicate KeepsBut(start: seq<Rule>, now: seq<Rule>, p: nat) {
    forall x :: x in start && x.priority != p ==> x in now
  }

  lemma DeleteKeeps(k: seq<Rule>, r: Rule)
    ensures KeepsBut(k, DeleteRule(k, r), r.priority)
  {
    var i := FirstMatch(k, r);
    if i < |k| {
      assert k == k[..i] + [k[i]] + k[i + 1..];
    }
  }

  lemma DeletePriorityKeeps(k: seq<Rule>, p: nat)
    ensures KeepsBut(k, DeletePriority(k, p), p)
  {
    var i := FirstAt(k, p);
    if i < |k| {
      assert k == k[..i] + [k[i]] + k[i + 1..];
    }
  }

  lemma ClearOne(k: seq<Rule>, p: nat, n: nat)
    ensures Clear(k, p, 0) == k && (n > 0 ==> Clear(k, p, n) == Clear(DeletePriority(k, p), p, n - 1))
  {
  }

  lemma {:induction false} ClearNothing(k: seq<Rule>, p: nat, n: nat)
    requires FirstAt(k, p) == |k|
    ensures Clear(k, p, n) == k
    decreases n
  {
    if n > 0 {
      ClearNothing(k, p, n - 1);
    }
  }

  lemma {:induction false} InstalledStep(done: seq<Rule>, k: seq<Rule>, rs: seq<Rule>)
    requires |rs| > 0
    ensures done + Installed(k, rs) ==
            (if Duplicate(k, rs[0]) then done else done + [rs[0]]) + Installed(Rtnl.AddRule(k, rs[0]), rs[1..])
  {
    Shift(done, rs[0], Installed(Rtnl.AddRule(k, rs[0]), rs[1..]));
  }

  lemma Shift<T>(done: seq<T>, x: T, rest: seq<T>)
    ensures done + ([x] + rest) == (done + [x]) + rest
    ensures done + ([] + rest) == done + rest
  {
  }
}
