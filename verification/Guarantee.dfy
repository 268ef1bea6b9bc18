/**
The two halves joined: a plan of the comparison asks only for the owner's rules, so a
transaction that carries it out on a kernel of its own, with the policy gate, keeps every
protected packet held at every moment.
*/
module Guarantee {
  import opened Rtnl
  import opened Contract
  import opened Comparison
  import opened OnePriority
  import opened Copies
  import opened Repair
  import opened Converge
  import opened Policy
  import opened Escape
  import opened Points
  import opened Watch
  import opened Mutator
  import opened Pass
  import opened ExitRoutes

  /** The rule is one the owner may add. */
  ghost predicate Owned(c: Config, f: Family, r: Rule) {
    r.family == f && OwnerRule(c, f, r)
  }

  lemma ExpectedOwned(s: Spec, f: Family, p: nat, r: Rule)
    requires r in RulesAt(s, f, p)
    ensures Owned(s.config, f, r) && (r.priority > 0 ==> Owned(s.config, f, CopyOf(r)))
  {
    hide RulesAt, RuleOf, SlotOf;
    var slot := ExpectedSlot(s, f, p, r);
    RuleStands(s.config, f, slot);
    assert WrittenFor(s.config, f, slot, r);
    assert r.priority > 0 ==> WrittenFor(s.config, f, slot, CopyOf(r));
  }

  lemma {:induction false} AdditionsOwned(s: Spec, f: Family, st: DiffState, hold: bool, order: seq<nat>, a: Action)
    requires a in Additions(s, f, st, hold, order)
    ensures a.kind.Add? && Owned(s.config, f, a.rule)
  {
    hide RulesAt, Missing;
    if a in AdditionsAt(s, f, st, hold, order[0]) {
      MissingAreWanted(RulesAt(s, f, order[0]), st.UsedAt(order[0]));
      ExpectedOwned(s, f, order[0], a.rule);
    } else {
      AdditionsOwned(s, f, st, hold, order[1..], a);
    }
  }

  /** Nothing a comparison leads to adding, copies included, is not the owner's. */
  lemma PlanOwned(s: Spec, f: Family, actual: seq<Rule>, hold: bool, r: Rule)
    requires (forall p :: !s.Skipped(f, p)) && r in PlanAdds(s, f, actual, Diff(s, f, actual, hold))
    ensures Owned(s.config, f, r)
  {
    hide RulesAt, Scan;
    var plan := Diff(s, f, actual, hold);
    var a :| a in plan && r in ActAdds(s, f, actual, a);
    if a.kind.Sub? {
      BackOwned(s, f, a.priority, r);
    } else {
      AddIsListed(s, f, actual, hold, a);
    }
  }

  lemma BackOwned(s: Spec, f: Family, p: nat, r: Rule)
    requires r in RuleSet(RulesAt(s, f, p)) + CopySet(RulesAt(s, f, p))
    ensures Owned(s.config, f, r)
  {
    hide RulesAt, Owned;
    if r in RuleSet(RulesAt(s, f, p)) {
      ExpectedOwned(s, f, p, r);
    } else {
      var w :| w in RulesAt(s, f, p) && w.priority > 0 && r == CopyOf(w);
      ExpectedOwned(s, f, p, w);
    }
  }

  lemma AddIsListed(s: Spec, f: Family, actual: seq<Rule>, hold: bool, a: Action)
    requires (forall p :: !s.Skipped(f, p)) && a in Diff(s, f, actual, hold) && a.kind.Add?
    ensures Owned(s.config, f, a.rule)
  {
    hide RulesAt, Scan, Owned;
    NothingLeft(s, f, actual, BACKSTOP);
    NothingLeft(s, f, actual, RETURN_PATH);
    var st := Scan(s, f, actual, START, actual);
    RemovalsAdd(s, f, actual, actual, START, a);
    if a in Additions(s, f, st, hold, AddOrder(s.config)) {
      AdditionsOwned(s, f, st, hold, AddOrder(s.config), a);
    }
  }

  /** The scan's removals add nothing. */
  lemma {:induction false} RemovalsAdd(s: Spec, f: Family, all: seq<Rule>, rest: seq<Rule>, st: DiffState, a: Action)
    requires a.kind.Add? && a !in st.removals
    ensures a !in Scan(s, f, all, st, rest).removals
    decreases |rest|
  {
    hide RulesAt, LeftReturnPath, MatchIndex;
    if |rest| > 0 {
      RemovalsAdd(s, f, all, rest[1..], Judge(s, f, all, st, rest[0]), a);
    }
  }

  predicate Shaped(f: Family, acts: seq<Action>) {
    forall a :: a in acts ==> a.rule.family == f && a.rule.priority == a.priority
  }

  lemma {:induction false} RemovalsShaped(s: Spec, f: Family, all: seq<Rule>, rest: seq<Rule>, st: DiffState)
    requires (forall r :: r in rest ==> r.family == f) && Shaped(f, st.removals)
    ensures Shaped(f, Scan(s, f, all, st, rest).removals)
    decreases |rest|
  {
    hide RulesAt, LeftReturnPath, MatchIndex, DeleteMayTake, LeftoverCopy;
    if |rest| > 0 {
      RemovalsShaped(s, f, all, rest[1..], Judge(s, f, all, st, rest[0]));
    }
  }

  lemma {:induction false} AdditionsShaped(s: Spec, f: Family, st: DiffState, hold: bool, order: seq<nat>)
    ensures Shaped(f, Additions(s, f, st, hold, order))
  {
    hide RulesAt, Missing;
    if |order| > 0 {
      AdditionsShaped(s, f, st, hold, order[1..]);
      forall a | a in AdditionsAt(s, f, st, hold, order[0])
        ensures a.rule.family == f && a.rule.priority == a.priority
      {
        MissingAreWanted(RulesAt(s, f, order[0]), st.UsedAt(order[0]));
        var slot := ExpectedSlot(s, f, order[0], a.rule);
        RuleStands(s.config, f, slot);
      }
    }
  }

  lemma PlanShaped(s: Spec, f: Family, actual: seq<Rule>, hold: bool)
    requires (forall p :: !s.Skipped(f, p)) && forall r :: r in actual ==> r.family == f
    ensures Shaped(f, Diff(s, f, actual, hold))
  {
    hide Scan, LeftReturnPath;
    NothingLeft(s, f, actual, BACKSTOP);
    NothingLeft(s, f, actual, RETURN_PATH);
    RemovalsShaped(s, f, actual, actual, START);
    AdditionsShaped(s, f, Scan(s, f, actual, START, actual), hold, AddOrder(s.config));
  }

  /** Carrying out a plan of the comparison on a kernel nobody else changes, with the policy gate:
      a protected packet held when the transaction began is held at every moment so far. */
  method ApplyPlan(tx: Transaction, f: Family, actual: seq<Rule>, hold: bool, removals: bool, ghost level: Level, ghost p: Packet)
    requires tx.Valid() && tx.k.honest && tx.k.alone && forall q :: !tx.spec.Skipped(f, q)
    requires forall r :: r in actual ==> r.family == f
    requires forall a, b :: tx.gate(a, b) ==> GateApproves(a, b)
    requires AllAsked(tx.begun.now, tx.log) && InRange(p)
    requires Steady(tx.begun.now, level) && FamiliesRight(tx.begun.now, p.f) && Protected(tx.begun.now, p) && Held(tx.begun.now, level, p)
    modifies tx`model, tx`log, tx.k
    ensures tx.Valid() && AllAsked(tx.begun.now, tx.log)
    ensures RunReaches(tx.begun, tx.log, p) ==>
              forall i :: 0 <= i <= |tx.log| ==> Held(Played(tx.begun, tx.log[..i]).now, level, p)
    ensures tx.k.routes == old(tx.k.routes)
    ensures tx.Granted() && removals && !hold && old(tx.k.rules).At(f) == actual ==> tx.k.rules.At(f) == Round(tx.spec, f, actual)
  {
    hide Diff, Steady, GateApproves, Held, Protected, FamiliesRight, InRange, AllAsked, OnlyAdds, PlanAdds, LegalRun, Played, RunReaches, CarryAll;
    var plan := RunDiff(tx.spec, f, actual, hold);
    PlanShaped(tx.spec, f, actual, hold);
    tx.Apply(tx.spec, f, actual, plan, removals);
    forall r | r in PlanAdds(tx.spec, f, actual, plan)
      ensures OwnerRule(tx.begun.now.spec.config, r.family, r)
    {
      PlanOwned(tx.spec, f, actual, hold, r);
    }
    AddsAreAsked(tx.begun.now, old(tx.log), tx.log, PlanAdds(tx.spec, f, actual, plan));
    if RunReaches(tx.begun, tx.log, p) {
      forall i | 0 <= i <= |tx.log|
        ensures Held(Played(tx.begun, tx.log[..i]).now, level, p)
      {
        HeldAt(tx.KindOf(), tx.gate, tx.begun, tx.log, level, p, i);
      }
    }
  }

  function PutsOf(acts: seq<RouteAction>): set<Route> {
    set a | a in acts && !a.DropRoute? :: a.route
  }

  function DropsOf(acts: seq<RouteAction>): set<Route> {
    set a | a in acts && a.DropRoute? :: a.route
  }

  /** What granted actions do to the kernel. */
  function StateDone(s: State, acts: seq<RouteAction>, removals: bool): State
    decreases |acts|
  {
    if |acts| == 0 then s
    else
      var a := acts[0];
      StateDone(if !a.DropRoute? then WithRoute(s, a.route) else if removals then WithoutRoute(s, a.route) else s, acts[1..], removals)
  }

  /** Granted actions on the routes of one table are the table's. */
  lemma {:induction false} TableDone(s: State, acts: seq<RouteAction>, removals: bool, f: Family, t: nat)
    requires s.Known(f, t) && forall a :: a in acts ==> a.route.family == f && a.route.table == t
    ensures StateDone(s, acts, removals) == s.WithTable(f, t, RoutesDone(s.Table(f, t), acts, removals))
    decreases |acts|
  {
    hide ReplaceIn, DeleteIn;
    if |acts| == 0 {
      SameTable(s, f, t);
    } else {
      var a := acts[0];
      assert a in acts;
      var rts := OneDone(s.Table(f, t), a, removals);
      var next := if !a.DropRoute? then WithRoute(s, a.route) else if removals then WithoutRoute(s, a.route) else s;
      SameTable(s, f, t);
      assert next == s.WithTable(f, t, rts);
      TableDone(next, acts[1..], removals, f, t);
      TableTwice(s, f, t, rts, RoutesDone(rts, acts[1..], removals));
    }
  }

  lemma SameTable(s: State, f: Family, t: nat)
    requires s.Known(f, t)
    ensures s.WithTable(f, t, s.Table(f, t)) == s
  {
    assert s.routes.At(f)[t := s.routes.At(f)[t]] == s.routes.At(f);
  }

  lemma TableTwice(s: State, f: Family, t: nat, a: seq<Route>, b: seq<Route>)
    ensures s.WithTable(f, t, a).WithTable(f, t, b) == s.WithTable(f, t, b) && s.WithTable(f, t, a).Table(f, t) == a
  {
    assert s.routes.At(f)[t := a][t := b] == s.routes.At(f)[t := b];
  }

  /** Carries out the exit table's actions: without removals nothing is deleted, and nothing is
      once a route could not be put in. With every request granted all of them are done. */
  method ApplyRoutes(tx: Transaction, acts: seq<RouteAction>, removals: bool)
    requires tx.Valid()
    modifies tx`model, tx`log, tx.k
    ensures tx.Valid() && StopsOnLoss(old(tx.log), tx.log)
    ensures OnlyRoutes(old(tx.log), tx.log, PutsOf(acts), if removals then DropsOf(acts) else {})
    ensures tx.Granted() ==> tx.k.Seen(tx.Judged()) == StateDone(old(tx.k.Seen(tx.Judged())), acts, removals)
  {
    hide WithRoute, WithoutRoute;
    var failed := false;
    ghost var drops := if removals then DropsOf(acts) else {};
    for i := 0 to |acts|
      invariant tx.Granted() ==> !failed
      invariant tx.Granted() ==> StateDone(tx.k.Seen(tx.Judged()), acts[i..], removals) == StateDone(old(tx.k.Seen(tx.Judged())), acts, removals)
      invariant tx.Valid() && OnlyRoutes(old(tx.log), tx.log, PutsOf(acts), drops) && StopsOnLoss(old(tx.log), tx.log)
      invariant !failed ==> PutsLand(old(tx.log), tx.log)
    {
      ghost var mid := tx.log;
      assert acts[i] in acts && acts[i..][0] == acts[i] && acts[i..][1..] == acts[i + 1..];
      if !acts[i].DropRoute? {
        var err := tx.ReplaceRoute(acts[i].route);
        NoDropsStop(mid, tx.log, {acts[i].route});
        RoutesMore(old(tx.log), mid, tx.log, PutsOf(acts), drops, {acts[i].route}, {});
        failed := failed || err;
      } else if removals && !failed {
        var changed, err := tx.DelRoute(acts[i].route);
        NoPutsLand(mid, tx.log, {acts[i].route});
        RoutesMore(old(tx.log), mid, tx.log, PutsOf(acts), drops, {}, {acts[i].route});
      }
    }
  }

  lemma NoDropsStop(was: seq<Watch.Event>, now: seq<Watch.Event>, puts: set<Route>)
    requires OnlyRoutes(was, now, puts, {})
    ensures StopsOnLoss(was, now)
  {
  }

  lemma NoPutsLand(was: seq<Watch.Event>, now: seq<Watch.Event>, drops: set<Route>)
    requires OnlyRoutes(was, now, {}, drops)
    ensures PutsLand(was, now) && StopsOnLoss(was, now)
  {
  }

  lemma {:induction false} DropsOnly(routes: seq<Route>, exitIdx: nat, mode: TunnelMode, st: ExitScan)
    requires forall a :: a in st.drops ==> a.DropRoute?
    ensures forall a :: a in ScanExit(routes, exitIdx, mode, st).drops ==> a.DropRoute?
    decreases |routes|
  {
    if |routes| > 0 {
      var r := routes[0];
      DropsOnly(routes[1..], exitIdx, mode,
                if IsFallback(r) && !st.fallback then st.(fallback := true)
                else if TakesTunnel(r, exitIdx, mode) && !st.tunnel then st.(tunnel := true)
                else st.(drops := st.drops + [DropRoute(r)]));
    }
  }

  lemma PutsOwned(s: State, routes: seq<Route>, f: Family, mode: TunnelMode, rt: Route)
    requires rt in PutsOf(ExitTableActions(routes, f, s.spec.config.table, s.exitIdx, mode))
    ensures OwnerRoute(s, rt)
  {
    DropsOnly(routes, s.exitIdx, mode, ExitScan(false, false, []));
    hide ScanExit, FallbackRoute, TunnelRoute;
  }

  /** All a native pass applies for one family, its rules and then its exit table's routes, on a
      kernel nobody else changes: a protected packet held when the transaction began is held at
      every moment so far. With every request granted and removals, the rules end as a round leaves
      them, and the exit table ends exact. */
  method ApplyFamily(tx: Transaction, f: Family, actual: seq<Rule>, hold: bool, routes: seq<Route>, exitIdx: nat, mode: TunnelMode,
                     removals: bool, ghost level: Level, ghost p: Packet)
    requires tx.Valid() && tx.k.honest && tx.k.alone && forall q :: !tx.spec.Skipped(f, q)
    requires forall r :: r in actual ==> r.family == f
    requires forall a, b :: tx.gate(a, b) ==> GateApproves(a, b)
    requires exitIdx == tx.begun.now.exitIdx
    requires AllAsked(tx.begun.now, tx.log) && InRange(p)
    requires Steady(tx.begun.now, level) && FamiliesRight(tx.begun.now, p.f) && Protected(tx.begun.now, p) && Held(tx.begun.now, level, p)
    modifies tx`model, tx`log, tx.k
    ensures tx.Valid() && AllAsked(tx.begun.now, tx.log)
    ensures RunReaches(tx.begun, tx.log, p) ==>
              forall i :: 0 <= i <= |tx.log| ==> Held(Played(tx.begun, tx.log[..i]).now, level, p)
    ensures tx.Granted() && removals && ReadAs(old(tx.k.Seen(tx.Judged())), f, tx.spec.config.table, actual, routes) ==>
              && (!hold ==> tx.k.rules.At(f) == Round(tx.spec, f, actual))
              && (Apart(routes, f, tx.spec.config.table, exitIdx, mode) ==>
                    ExactTable(tx.k.Seen(tx.Judged()).Table(f, tx.spec.config.table), exitIdx, mode))
  {
    hide Diff, Steady, GateApproves, Held, Protected, FamiliesRight, InRange, AllAsked, OnlyRoutes, StopsOnLoss, LegalRun, Played, RunReaches, PutsOf, DropsOf, ExitTableActions, OwnerRoute, Round, StateDone, Apart, ExactTable;
    ApplyPlan(tx, f, actual, hold, removals, level, p);
    var acts := RunExitTable(routes, f, tx.spec.config.table, exitIdx, mode);
    ghost var mid := tx.log;
    ghost var planned := tx.k.Seen(tx.Judged());
    ApplyRoutes(tx, acts, removals);
    if tx.Granted() && removals && ReadAs(old(tx.k.Seen(tx.Judged())), f, tx.spec.config.table, actual, routes) {
      RoutesSettle(planned, routes, f, tx.spec.config.table, exitIdx, mode);
    }
    forall rt | rt in PutsOf(acts)
      ensures OwnerRoute(tx.begun.now, rt)
    {
      PutsOwned(tx.begun.now, routes, f, mode, rt);
    }
    RoutesAreAsked(tx.begun.now, mid, tx.log, PutsOf(acts), if removals then DropsOf(acts) else {});
    if RunReaches(tx.begun, tx.log, p) {
      forall i | 0 <= i <= |tx.log|
        ensures Held(Played(tx.begun, tx.log[..i]).now, level, p)
      {
        HeldAt(tx.KindOf(), tx.gate, tx.begun, tx.log, level, p, i);
      }
    }
  }

  /** The kernel's rules and exit table of a family are the ones that were read. */
  predicate ReadAs(s: State, f: Family, t: nat, actual: seq<Rule>, routes: seq<Route>) {
    && s.rules.At(f) == actual && s.Known(f, t) && s.Table(f, t) == routes
    && forall r :: r in routes ==> r.family == f && r.table == t
  }

  /** Granted, the actions of a table that was read leave the rules alone and the table exact. */
  lemma RoutesSettle(s: State, routes: seq<Route>, f: Family, t: nat, exitIdx: nat, mode: TunnelMode)
    requires s.Known(f, t) && s.Table(f, t) == routes && forall r :: r in routes ==> r.family == f && r.table == t
    ensures var out := StateDone(s, ExitTableActions(routes, f, t, exitIdx, mode), true);
            && out.rules == s.rules
            && (Apart(routes, f, t, exitIdx, mode) ==> ExactTable(out.Table(f, t), exitIdx, mode))
  {
    hide StateDone, RoutesDone, ExitTableActions, Apart, ExactTable;
    var acts := ExitTableActions(routes, f, t, exitIdx, mode);
    ActsInTable(routes, f, t, exitIdx, mode);
    TableDone(s, acts, true, f, t);
    if Apart(routes, f, t, exitIdx, mode) {
      TableSettles(routes, f, t, exitIdx, mode);
    }
  }

  lemma ActsInTable(routes: seq<Route>, f: Family, t: nat, exitIdx: nat, mode: TunnelMode)
    requires forall r :: r in routes ==> r.family == f && r.table == t
    ensures forall a :: a in ExitTableActions(routes, f, t, exitIdx, mode) ==> a.route.family == f && a.route.table == t
  {
    hide ScanExit;
    DropsWithin(routes, exitIdx, mode, ExitScan(false, false, []));
  }

  lemma {:induction false} DropsWithin(routes: seq<Route>, exitIdx: nat, mode: TunnelMode, st: ExitScan)
    ensures forall a :: a in ScanExit(routes, exitIdx, mode, st).drops ==> a in st.drops || a.route in routes
    decreases |routes|
  {
    hide IsFallback, TakesTunnel;
    if |routes| > 0 {
      var r := routes[0];
      assert r in routes;
      DropsWithin(routes[1..], exitIdx, mode,
                  if IsFallback(r) && !st.fallback then st.(fallback := true)
                  else if TakesTunnel(r, exitIdx, mode) && !st.tunnel then st.(tunnel := true)
                  else st.(drops := st.drops + [DropRoute(r)]));
    }
  }

  lemma HeldAt(kind: Features, gate: Gate, v: View, es: seq<Watch.Event>, level: Level, p: Packet, i: nat)
    requires Start(v) && LegalRun(kind, gate, v, es) && kind.alone && AllAsked(v.now, es) && RunReaches(v, es, p)
    requires (forall a, b :: gate(a, b) ==> GateApproves(a, b)) && InRange(p) && i <= |es|
    requires Steady(v.now, level) && FamiliesRight(v.now, p.f) && Protected(v.now, p) && Held(v.now, level, p)
    ensures Held(Played(v, es[..i]).now, level, p)
  {
    hide Steady, GateApproves, Held, Protected, FamiliesRight, InRange, Represented, Reached, LegalRun, Played, Asked;
    var before := es[..i];
    assert es == before + es[i..];
    LegalPrefix(kind, gate, v, before, es[i..]);
    AloneIsQuiet(kind, gate, v, before);
    forall j | 0 <= j < |before|
      ensures before[..j] == es[..j] && before[j] == es[j]
    {
    }
    HeldThroughout(kind, gate, v, before, level, p);
    KeptHolds(Played(v, before).now, level, p, v.now);
  }

  lemma KeptHolds(s: State, level: Level, p: Packet, first: State)
    requires Watch.Kept(s, level, p, first)
    ensures Held(s, level, p)
  {
  }
}
