/**
The repair pass: what a family's plan asks for, when it asks for nothing, and the rounds of
looking, repairing and looking again that end in a verdict.
*/
module Pass {
  import opened Rtnl
  import opened Contract
  import opened Comparison
  import opened OnePriority
  import opened Identities
  import opened Converge
  import opened Repair
  import opened Judges
  import opened Policy

  // ---- the exit table ----

  datatype TunnelMode = TunnelNone | TunnelRequired | TunnelMaybe

  datatype RouteAction = AddFallback(route: Route) | AddTunnel(route: Route) | DropRoute(route: Route)

  /** The permanent unreachable default that keeps the exit table closed. */
  predicate IsFallback(r: Route) {
    && r.rtype == ROUTE_UNREACHABLE && r.IsDefault() && r.metric == FALLBACK_METRIC && r.Unconditional()
    && (r.family.V4? ==> r.scope == SCOPE_UNIVERSE)
  }

  /** The live default route out of the tunnel, ahead of the fallback. */
  predicate IsTunnelRoute(r: Route, exitIdx: nat) {
    && r.rtype == ROUTE_UNICAST && r.IsDefault() && exitIdx != 0 && r.oif == Some(exitIdx)
    && r.gateway.None? && !r.via && !r.multiPath && r.nhid.None?
    && r.metric < FALLBACK_METRIC && r.Unconditional() && !r.dead
    && (r.family.V4? ==> r.scope == SCOPE_LINK)
  }

  predicate TakesTunnel(r: Route, exitIdx: nat, mode: TunnelMode) {
    IsTunnelRoute(r, exitIdx) && !mode.TunnelNone?
  }

  datatype ExitScan = ExitScan(fallback: bool, tunnel: bool, drops: seq<RouteAction>)

  function ScanExit(routes: seq<Route>, exitIdx: nat, mode: TunnelMode, st: ExitScan): ExitScan
    decreases |routes|
  {
    if |routes| == 0 then st
    else
      var r := routes[0];
      ScanExit(routes[1..], exitIdx, mode,
               if IsFallback(r) && !st.fallback then st.(fallback := true)
               else if TakesTunnel(r, exitIdx, mode) && !st.tunnel then st.(tunnel := true)
               else st.(drops := st.drops + [DropRoute(r)]))
  }

  function ExitTableActions(routes: seq<Route>, f: Family, table: nat, exitIdx: nat, mode: TunnelMode): seq<RouteAction> {
    var st := ScanExit(routes, exitIdx, mode, ExitScan(false, false, []));
    (if st.fallback then [] else [AddFallback(FallbackRoute(f, table))])
    + (if mode.TunnelRequired? && !st.tunnel && exitIdx != 0 then [AddTunnel(TunnelRoute(f, table, exitIdx))] else [])
    + st.drops
  }

  /** The comparison as the code runs it: one pass with two flags. */
  method RunExitTable(routes: seq<Route>, f: Family, table: nat, exitIdx: nat, mode: TunnelMode) returns (out: seq<RouteAction>)
    ensures out == ExitTableActions(routes, f, table, exitIdx, mode)
  {
    var drops: seq<RouteAction>, fallback, tunnel := [], false, false;
    for i := 0 to |routes|
      invariant ScanExit(routes[i..], exitIdx, mode, ExitScan(fallback, tunnel, drops)) ==
                ScanExit(routes, exitIdx, mode, ExitScan(false, false, []))
    {
      var r := routes[i];
      assert routes[i..][0] == r && routes[i..][1..] == routes[i + 1..];
      if IsFallback(r) && !fallback {
        fallback := true;
      } else if IsTunnelRoute(r, exitIdx) && (mode == TunnelRequired || mode == TunnelMaybe) && !tunnel {
        tunnel := true;
      } else {
        drops := drops + [DropRoute(r)];
      }
    }
    out := [];
    if !fallback {
      out := out + [AddFallback(FallbackRoute(f, table))];
    }
    if mode == TunnelRequired && !tunnel && exitIdx != 0 {
      out := out + [AddTunnel(TunnelRoute(f, table, exitIdx))];
    }
    out := out + drops;
  }

  function CountFallback(routes: seq<Route>): nat {
    if |routes| == 0 then 0 else (if IsFallback(routes[0]) then 1 else 0) + CountFallback(routes[1..])
  }

  function CountTunnel(routes: seq<Route>, exitIdx: nat): nat {
    if |routes| == 0 then 0 else (if IsTunnelRoute(routes[0], exitIdx) then 1 else 0) + CountTunnel(routes[1..], exitIdx)
  }

  predicate OnlyOwn(routes: seq<Route>, exitIdx: nat, mode: TunnelMode) {
    forall r :: r in routes ==> IsFallback(r) || TakesTunnel(r, exitIdx, mode)
  }

  /** One fallback, the tunnel's route as the mode says, nothing else. */
  predicate ExactTable(routes: seq<Route>, exitIdx: nat, mode: TunnelMode) {
    && OnlyOwn(routes, exitIdx, mode)
    && CountFallback(routes) == 1 && CountTunnel(routes, exitIdx) <= 1
    && (mode.TunnelRequired? && exitIdx != 0 ==> CountTunnel(routes, exitIdx) == 1)
  }

  lemma {:induction false} ScanKeepsDrops(routes: seq<Route>, exitIdx: nat, mode: TunnelMode, st: ExitScan)
    ensures |ScanExit(routes, exitIdx, mode, st).drops| >= |st.drops|
    decreases |routes|
  {
    if |routes| > 0 {
      var r := routes[0];
      var next := if IsFallback(r) && !st.fallback then st.(fallback := true)
                  else if TakesTunnel(r, exitIdx, mode) && !st.tunnel then st.(tunnel := true)
                  else st.(drops := st.drops + [DropRoute(r)]);
      ScanKeepsDrops(routes[1..], exitIdx, mode, next);
    }
  }

  function One(b: bool): nat {
    if b then 1 else 0
  }

  lemma {:induction false} ScanExitIff(routes: seq<Route>, exitIdx: nat, mode: TunnelMode, st: ExitScan)
    requires st.drops == []
    ensures var out := ScanExit(routes, exitIdx, mode, st);
            && (out.drops == [] <==>
                  OnlyOwn(routes, exitIdx, mode) && CountFallback(routes) + One(st.fallback) <= 1
                  && (mode.TunnelNone? || CountTunnel(routes, exitIdx) + One(st.tunnel) <= 1))
            && (out.drops == [] ==> One(out.fallback) == CountFallback(routes) + One(st.fallback))
            && (out.drops == [] && !mode.TunnelNone? ==> One(out.tunnel) == CountTunnel(routes, exitIdx) + One(st.tunnel))
    decreases |routes|
  {
    if |routes| > 0 {
      var r := routes[0];
      assert r in routes;
      if IsFallback(r) && !st.fallback {
        ScanExitIff(routes[1..], exitIdx, mode, st.(fallback := true));
      } else if TakesTunnel(r, exitIdx, mode) && !st.tunnel {
        ScanExitIff(routes[1..], exitIdx, mode, st.(tunnel := true));
      } else {
        ScanKeepsDrops(routes[1..], exitIdx, mode, st.(drops := [DropRoute(r)]));
        assert st.drops + [DropRoute(r)] == [DropRoute(r)];
      }
    }
  }

  lemma {:induction false} NoTunnelCounted(routes: seq<Route>, exitIdx: nat)
    requires OnlyOwn(routes, exitIdx, TunnelNone)
    ensures CountTunnel(routes, exitIdx) == 0
  {
    if |routes| > 0 {
      assert routes[0] in routes;
      NoTunnelCounted(routes[1..], exitIdx);
    }
  }

  /** The exit table asks for nothing if and only if it is exact. */
  lemma ExitCleanIff(routes: seq<Route>, f: Family, table: nat, exitIdx: nat, mode: TunnelMode)
    ensures ExitTableActions(routes, f, table, exitIdx, mode) == [] <==> ExactTable(routes, exitIdx, mode)
  {
    ScanExitIff(routes, exitIdx, mode, ExitScan(false, false, []));
    if mode.TunnelNone? && OnlyOwn(routes, exitIdx, mode) {
      NoTunnelCounted(routes, exitIdx);
    }
  }

  // ---- a family's plan ----

  /** What a look shows: the rules, the exit table's routes, the global addresses on the tunnel
      interface and on every interface, the tunnel interface (index 0 when absent), and whether
      the host table has to be refilled. An unstable look may show anything. */
  datatype Snap = Snap(
    rules: Pair<seq<Rule>>,
    exit: Pair<seq<Route>>,
    addrs: Pair<seq<Addr>>,
    everywhere: Pair<seq<Addr>>,
    exitIdx: nat,
    up: bool,
    hostStale: Pair<bool>,
    noDefault: bool,
    unstable: bool
  )

  /** The addresses of more that are not in have, once each, after have. */
  function Joined(have: seq<Addr>, more: seq<Addr>): seq<Addr>
    decreases |more|
  {
    if |more| == 0 then have
    else Joined(if more[0] in have then have else have + [more[0]], more[1..])
  }

  lemma {:induction false} JoinedHas(have: seq<Addr>, more: seq<Addr>)
    ensures forall a :: a in Joined(have, more) <==> a in have || a in more
    ensures Distinct(have) ==> Distinct(Joined(have, more))
    decreases |more|
  {
    if |more| > 0 {
      var next := if more[0] in have then have else have + [more[0]];
      JoinedHas(next, more[1..]);
    }
  }

  /** The contract a plan is judged against: natively every address live on the tunnel is
      protected too; with gluetun the observed address is the one protected. */
  function Effective(s: Spec, snap: Snap, f: Family): Spec {
    var live := snap.addrs.At(f);
    if s.config.IsGluetun() then s.(returnPath := s.returnPath.With(f, if |live| > 0 then [live[0]] else []))
    else if s.leave.At(f) then s
    else s.(returnPath := s.returnPath.With(f, Joined(s.returnPath.At(f), live)))
  }

  function Mode(s: Spec, snap: Snap, f: Family): TunnelMode {
    var up := snap.exitIdx != 0 && snap.up;
    if s.config.IsGluetun() then (if |snap.addrs.At(f)| > 0 && up then TunnelRequired else TunnelNone)
    else if up && (f.V4? || |Effective(s, snap, f).returnPath.v6| > 0) then TunnelRequired
    else TunnelNone
  }

  datatype Plan = Plan(eff: Spec, rules: seq<Action>, routes: seq<RouteAction>, hostRefresh: bool, unprotected: bool, noDefault: bool) {
    predicate Clean() { rules == [] && routes == [] && !hostRefresh }
    predicate Healthy() { Clean() && !unprotected && !noDefault }
  }

  /** Some rule at the priority names the address as its source. */
  predicate NamesAt(rules: seq<Rule>, p: nat, a: Addr) {
    exists r :: r in rules && r.priority == p && r.src.Some? && r.src.v.addr == a
  }

  predicate Unprotected(s: Spec, snap: Snap, f: Family) {
    exists a :: a in snap.addrs.At(f) &&
      !(NamesAt(snap.rules.At(f), RETURN_PATH, a) && (s.config.IsGluetun() || NamesAt(snap.rules.At(f), BACKSTOP, a)))
  }

  function PlanFamily(s: Spec, snap: Snap, f: Family): Plan {
    var eff := Effective(s, snap, f);
    var stale := s.config.IsGluetun() && snap.hostStale.At(f);
    Plan(eff, Diff(eff, f, snap.rules.At(f), stale),
         ExitTableActions(snap.exit.At(f), f, s.config.table, snap.exitIdx, Mode(s, snap, f)),
         stale, Unprotected(s, snap, f), s.config.IsGluetun() && f.V4? && !stale && snap.noDefault)
  }

  predicate AllClean(s: Spec, snap: Snap) {
    PlanFamily(s, snap, V4).Clean() && PlanFamily(s, snap, V6).Clean()
  }

  // ---- what a clean plan means ----

  /** Scanning never takes a removal back. */
  lemma {:induction false} RemovalsGrow(s: Spec, f: Family, all: seq<Rule>, st: DiffState, rest: seq<Rule>)
    ensures |Scan(s, f, all, st, rest).removals| >= |st.removals|
    decreases |rest|
  {
    if |rest| > 0 {
      RemovalsGrow(s, f, all, Judge(s, f, all, st, rest[0]), rest[1..]);
    }
  }

  /** Where return-path rules are left to a transaction, an empty plan leaves nothing else. */
  lemma {:induction false} SkippedAreShaped(s: Spec, f: Family, all: seq<Rule>, st: DiffState, rest: seq<Rule>, x: Rule)
    requires s.Owned(x.priority) && s.Skipped(f, x.priority) && x in rest && x.priority !in st.subbed
    requires Scan(s, f, all, st, rest).removals == []
    ensures ReturnPathShaped(s, f, x)
    decreases |rest|
  {
    var a := rest[0];
    var one := Finding(s, f, all, st.UsedAt(a.priority), a.priority in st.subbed, a);
    var next := Judge(s, f, all, st, a);
    RemovalsGrow(s, f, all, next, rest[1..]);
    assert next.removals == st.removals + one.removals;
    assert one.removals == [];
    if a != x {
      if a.priority == x.priority {
        QuietStaysQuiet(s, f, all, st.UsedAt(a.priority), false, a);
      }
      SkippedAreShaped(s, f, all, next, rest[1..], x);
    }
  }

  lemma QuietStaysQuiet(s: Spec, f: Family, all: seq<Rule>, used: set<nat>, subbed: bool, a: Rule)
    requires Finding(s, f, all, used, subbed, a).removals == [] && !subbed
    ensures !Finding(s, f, all, used, subbed, a).subbed
  {
  }

  /** What a verdict of the contract says about one family of a look. */
  ghost predicate FamilyHolds(s: Spec, snap: Snap, f: Family) {
    var eff := Effective(s, snap, f);
    && Keys(OwnedOf(eff, f, snap.rules.At(f))) == Keys(Rules(eff, f))
    && (forall x :: x in snap.rules.At(f) && eff.Owned(x.priority) && eff.Skipped(f, x.priority) ==> ReturnPathShaped(eff, f, x))
    && ExactTable(snap.exit.At(f), snap.exitIdx, Mode(s, snap, f))
    && At(snap.rules.At(f), TEMP_GUARD) == []
    && !(s.config.IsGluetun() && snap.hostStale.At(f))
  }

  lemma EffectiveDistinct(s: Spec, snap: Snap, f: Family)
    requires Distinct(s.returnPath.At(f))
    ensures Distinct(Effective(s, snap, f).returnPath.At(f))
    ensures Effective(s, snap, f).config == s.config && Effective(s, snap, f).tempGuard == s.tempGuard
  {
    JoinedHas(s.returnPath.At(f), snap.addrs.At(f));
  }

  /** A clean plan with no guard expected is a family that holds the contract. */
  lemma CleanPlanHolds(s: Spec, snap: Snap, f: Family)
    requires s.config.Valid() && !s.config.IsGluetunSidecar() && Distinct(s.returnPath.At(f)) && !s.tempGuard.At(f)
    requires PlanFamily(s, snap, f).Clean()
    ensures FamilyHolds(s, snap, f)
  {
    var eff, rules := Effective(s, snap, f), snap.rules.At(f);
    EffectiveDistinct(s, snap, f);
    assert Diff(eff, f, rules, false) == [];
    forall p | Judged(eff, f, p)
      ensures Holds(At(rules, p), RulesAt(eff, f, p))
    {
      EmptyPlanHolds(eff, f, rules, p);
    }
    HoldsByPriority(eff, f, rules);
    ExpectedNoRepeat(eff, f);
    HoldsAsMultiset(OwnedOf(eff, f, rules), Rules(eff, f));
    forall x | x in rules && eff.Owned(x.priority) && eff.Skipped(f, x.priority)
      ensures ReturnPathShaped(eff, f, x)
    {
      SkippedAreShaped(eff, f, rules, START, rules, x);
    }
    ExitCleanIff(snap.exit.At(f), f, s.config.table, snap.exitIdx, Mode(s, snap, f));
    NoGuardExpected(eff, f);
    assert Judged(eff, f, TEMP_GUARD);
    NothingHeld(At(rules, TEMP_GUARD));
  }

  lemma NothingHeld(k: seq<Rule>)
    ensures Holds(k, []) ==> k == []
  {
    if |k| > 0 {
      assert k[0] in k;
    }
  }

  lemma NoGuardExpected(s: Spec, f: Family)
    requires !s.tempGuard.At(f)
    ensures RulesAt(s, f, TEMP_GUARD) == []
  {
    if RulesAt(s, f, TEMP_GUARD) != [] {
      var r := RulesAt(s, f, TEMP_GUARD)[0];
      RulesAtWritten(s, f, TEMP_GUARD);
      var i :| 0 <= i < |Written(s, f)| && Written(s, f)[i] == r;
      RuleAtPriority(s.config, f, Slots(s, f)[i]);
      GuardSlotExpected(s, f, Slots(s, f)[i]);
    }
  }

  lemma {:induction false} GuardSlotExpected(s: Spec, f: Family, slot: Slot)
    requires slot in Slots(s, f) && PriorityOf(slot) == TEMP_GUARD
    ensures s.tempGuard.At(f)
  {
    hide AllPairs;
    assert slot == TempGuard;
    if slot in AllPairs(s.config, s.returnPath.At(f)) {
      PairsAreSlots(s.config, f, s.returnPath.At(f), slot);
    }
  }

  // ---- the pass ----

  const MAX_ROUNDS := 4

  predicate HasGuard(s: Spec, f: Family, rules: seq<Rule>) {
    exists r :: r in rules && r.priority == TEMP_GUARD && Items(r) == Items(GuardRule(s, f))
  }

  predicate TouchesGuards(acts: seq<Action>) {
    exists a :: a in acts && InGuardRange(a.priority)
  }

  function WithGuard(s: Spec, f: Family, on: bool): Spec {
    s.(tempGuard := s.tempGuard.With(f, on))
  }

  /** A guard an earlier pass left is expected until a pass verifies. */
  function Adopted(s: Spec, snap: Snap): Spec {
    if s.config.IsNativeSidecar() then s
    else s.(tempGuard := Pair(s.tempGuard.v4 || HasGuard(s, V4, snap.rules.v4), s.tempGuard.v6 || HasGuard(s, V6, snap.rules.v6)))
  }

  /** What a pass asks of the kernel, and whether that changed anything: a family's guard, the plans
      of both families as they were seen, with removals or without, and no guard any more. */
  datatype Ask =
    | AskedGuard(f: Family, changed: bool)
    | AskedPlans(spec: Spec, snap: Snap, removals: bool, changed: bool)
    | AskedNoGuard(f: Family, changed: bool)
  {
    predicate Removes() { AskedNoGuard? || (AskedPlans? && removals) }
  }

  /** A look, the contract at the time, and what was asked on it. */
  datatype Turn = Turn(spec: Spec, seen: Opt<Snap>, asks: seq<Ask>) {
    predicate Stable() { seen.Some? && !seen.v.unstable }

    /** The contract the look is judged by. */
    function By(): Spec { if seen.Some? then Adopted(spec, seen.v) else spec }

    /** What the look shows is the whole contract, with no guard held. */
    predicate Settled() { Stable() && AllClean(By(), seen.v) && By().tempGuard == Pair(false, false) }
  }

  /** Removals are asked for only on a look the kernel held still for. */
  predicate RemovesOnStable(log: seq<Turn>) {
    forall i, e :: 0 <= i < |log| && e in log[i].asks && e.Removes() ==> log[i].Stable()
  }

  predicate Changed(asks: seq<Ask>) {
    exists e :: e in asks && e.changed
  }

  /** Some request has changed something. */
  predicate AnyChanged(run: seq<Turn>) {
    exists i :: 0 <= i < |run| && Changed(run[i].asks)
  }

  /** More is asked on the last look. */
  function Extended(log: seq<Turn>, asks: seq<Ask>): seq<Turn>
    requires |log| > 0
  {
    var n := |log| - 1;
    log[n := log[n].(asks := log[n].asks + asks)]
  }

  lemma ExtendedTwice(log: seq<Turn>, a: seq<Ask>, b: seq<Ask>)
    requires |log| > 0
    ensures Extended(log, []) == log && Extended(Extended(log, a), b) == Extended(log, a + b)
  {
    var n := |log| - 1;
    assert log[n].asks + [] == log[n].asks;
    assert (log[n].asks + a) + b == log[n].asks + (a + b);
  }

  lemma ExtendedStable(log: seq<Turn>, e: Ask)
    requires |log| > 0 && RemovesOnStable(log) && (e.Removes() ==> log[|log| - 1].Stable())
    ensures RemovesOnStable(Extended(log, [e]))
  {
  }

  lemma LookedStable(log: seq<Turn>, turn: Turn)
    requires RemovesOnStable(log) && turn.asks == []
    ensures RemovesOnStable(log + [turn])
  {
  }

  lemma ChangedJoin(a: seq<Ask>, b: seq<Ask>, c: Ask)
    ensures Changed(a + b + [c]) <==> Changed(a) || Changed(b) || c.changed
  {
    var all := a + b + [c];
    assert forall e :: e in all <==> e in a || e in b || e == c;
  }

  /** A repair of the family is to be made behind a guard that is not yet expected. */
  predicate WantsGuard(guards: bool, s: Spec, f: Family, snap: Snap) {
    guards && TouchesGuards(PlanFamily(s, snap, f).rules) && !s.tempGuard.At(f)
  }

  /** The contract with a family's guard expected if it is wanted, and the look with it in if the
      kernel took it. */
  function BehindOne(guards: bool, s: Spec, f: Family, snap: Snap, took: bool): (Spec, Snap) {
    if !WantsGuard(guards, s, f, snap) then (s, snap)
    else
      (WithGuard(s, f, true),
       if took then snap.(rules := snap.rules.With(f, Insert(snap.rules.At(f), GuardRule(s, f)))) else snap)
  }

  function RaiseAsks(guards: bool, s: Spec, f: Family, snap: Snap, took: bool): seq<Ask> {
    if WantsGuard(guards, s, f, snap) then [AskedGuard(f, took)] else []
  }

  /** The plans that are carried out on a look: those it leads to behind the guards. */
  function Behind(guards: bool, s: Spec, snap: Snap, took: Pair<bool>): (Spec, Snap) {
    var (s4, snap4) := BehindOne(guards, s, V4, snap, took.v4);
    BehindOne(guards, s4, V6, snap4, took.v6)
  }

  /** The guards that are wanted, then the plans of both families, with removals only if the look
      was stable. */
  function RepairAsks(guards: bool, s: Spec, snap: Snap, took: Pair<bool>, changed: bool): seq<Ask> {
    var (s4, snap4) := BehindOne(guards, s, V4, snap, took.v4);
    var (s6, snap6) := BehindOne(guards, s4, V6, snap4, took.v6);
    RaiseAsks(guards, s, V4, snap, took.v4) + RaiseAsks(guards, s4, V6, snap4, took.v6)
    + [AskedPlans(s6, snap6, !snap.unstable, changed)]
  }

  function DropAsks(s: Spec, changed: Pair<bool>): seq<Ask> {
    (if s.tempGuard.v4 then [AskedNoGuard(V4, changed.v4)] else [])
    + if s.tempGuard.v6 then [AskedNoGuard(V6, changed.v6)] else []
  }

  /** What was asked on a look another look follows: on an unclean one the repair, on a clean one
      nothing unless it was stable, and then that the guards go. */
  ghost predicate Dealt(guards: bool, turn: Turn, next: Spec) {
    && turn.seen.Some?
    && var s, snap := turn.By(), turn.seen.v;
       if !AllClean(s, snap) then
         exists took, changed :: turn.asks == RepairAsks(guards, s, snap, took, changed) && next == Behind(guards, s, snap, took).0
       else if snap.unstable then turn.asks == [] && next == s
       else
         && s.tempGuard != Pair(false, false) && next == s.(tempGuard := Pair(false, false))
         && exists changed :: turn.asks == DropAsks(s, changed)
  }

  /** The looks of a pass, each but the last dealt with, and nothing asked on the last. */
  ghost predicate Turns(guards: bool, run: seq<Turn>) {
    && |run| > 0 && run[|run| - 1].asks == []
    && forall i, j :: 0 <= i && j == i + 1 < |run| ==> Dealt(guards, run[i], run[j].spec)
  }

  datatype Result = Result(holds: bool, verified: bool, repaired: bool, last: Opt<Snap>)

  /** What a pass says of its looks. It says the contract holds exactly if the last look shows it
      settled and is not the one behind the last round; otherwise it has run out of looks or of
      rounds. */
  ghost predicate Concluded(guards: bool, first: Spec, run: seq<Turn>, spec: Spec, res: Result) {
    && Turns(guards, run) && run[0].spec == first && |run| <= MAX_ROUNDS + 2
    && res.last == run[|run| - 1].seen && (res.repaired <==> AnyChanged(run))
    && (res.holds <==> run[|run| - 1].Settled() && |run| <= MAX_ROUNDS + 1)
    && (!res.holds && res.last.Some? ==> |run| > MAX_ROUNDS)
    && (res.holds ==> spec == run[|run| - 1].By())
    && (res.verified <==> res.holds && PlanFamily(spec, res.last.v, V4).Healthy() && PlanFamily(spec, res.last.v, V6).Healthy())
  }

  class Owner {
    /** Repairs of 90-97 are made behind the temporary guard. */
    const guardRepairs: bool
    var spec: Spec
    ghost var log: seq<Turn>

    constructor (spec: Spec, guardRepairs: bool)
      ensures this.spec == spec && log == [] && this.guardRepairs == (guardRepairs && !spec.config.IsNativeSidecar())
    {
      this.spec, this.guardRepairs, log := spec, guardRepairs && !spec.config.IsNativeSidecar(), [];
    }

    /** A look at a kernel that shows what it likes. */
    method Look() returns (snap: Opt<Snap>)
      requires RemovesOnStable(log)
      modifies this`log
      ensures log == old(log) + [Turn(spec, snap, [])]
      ensures RemovesOnStable(log)
    {
      hide RemovesOnStable;
      var had: bool := *;
      if had {
        var seen: Snap := *;
        snap := Some(seen);
      } else {
        snap := None;
      }
      LookedStable(log, Turn(spec, snap, []));
      log := log + [Turn(spec, snap, [])];
    }

    /** A request to the kernel; whether it changed anything. */
    method Request(e: Ask) returns (changed: bool)
      requires |log| > 0 && RemovesOnStable(log) && (e.Removes() ==> log[|log| - 1].Stable())
      modifies this`log
      ensures log == Extended(old(log), [e.(changed := changed)]) && RemovesOnStable(log)
    {
      hide RemovesOnStable;
      changed := *;
      ExtendedStable(log, e.(changed := changed));
      log := Extended(log, [e.(changed := changed)]);
    }

    /** Only the temporary guards of the contract may have been changed. */
    twostate predicate SameButGuards()
      reads this
    {
      spec == old(spec).(tempGuard := spec.tempGuard)
    }

    method AdoptGuards(snap: Snap)
      modifies this`spec
      ensures spec == Adopted(old(spec), snap) && SameButGuards()
    {
      if !spec.config.IsNativeSidecar() {
        if !spec.tempGuard.v4 && HasGuard(spec, V4, snap.rules.v4) {
          spec := WithGuard(spec, V4, true);
        }
        if !spec.tempGuard.v6 && HasGuard(spec, V6, snap.rules.v6) {
          spec := WithGuard(spec, V6, true);
        }
      }
    }

    /** Takes one family's guard out, on a stable look. */
    method DropGuard(f: Family) returns (changed: bool)
      requires |log| > 0 && RemovesOnStable(log) && log[|log| - 1].Stable()
      modifies this`spec, this`log
      ensures RemovesOnStable(log) && spec == WithGuard(old(spec), f, false)
      ensures log == Extended(old(log), if old(spec).tempGuard.At(f) then [AskedNoGuard(f, changed)] else [])
      ensures changed ==> old(spec).tempGuard.At(f)
    {
      hide RemovesOnStable;
      ExtendedTwice(log, [], []);
      changed := false;
      if spec.tempGuard.At(f) {
        spec := WithGuard(spec, f, false);
        changed := Request(AskedNoGuard(f, false));
      }
    }

    /** Puts one family's guard in before a repair that changes 90-97, and plans again: then, and
        only then, it is expected from now on and asked for, and what is repaired is what was
        seen with it in, if the kernel took it. */
    method RaiseGuard(f: Family, snap: Snap) returns (now: Snap, changed: bool)
      requires |log| > 0 && RemovesOnStable(log)
      modifies this`spec, this`log
      ensures RemovesOnStable(log) && (spec, now) == BehindOne(guardRepairs, old(spec), f, snap, changed) && SameButGuards()
      ensures log == Extended(old(log), RaiseAsks(guardRepairs, old(spec), f, snap, changed))
      ensures changed ==> WantsGuard(guardRepairs, old(spec), f, snap)
      ensures guardRepairs && TouchesGuards(PlanFamily(old(spec), snap, f).rules) && spec.config.IsNativeOverlay() ==>
                GuardRule(spec, f) in RulesAt(spec, f, TEMP_GUARD)
    {
      hide PlanFamily, RulesAt, RuleOf, RemovesOnStable, Insert;
      ExtendedTwice(log, [], []);
      now, changed := snap, false;
      if WantsGuard(guardRepairs, spec, f, snap) {
        spec := WithGuard(spec, f, true);
        changed := Request(AskedGuard(f, false));
        if changed {
          now := snap.(rules := snap.rules.With(f, Insert(snap.rules.At(f), GuardRule(spec, f))));
        }
      }
      if spec.config.IsNativeOverlay() && spec.tempGuard.At(f) {
        GuardIsExpected(spec, f);
      }
    }

    /** Carries the plans out behind the guards; removals only if the look was stable. */
    method Repair(snap: Snap) returns (changed: bool, ghost took: Pair<bool>, ghost done: bool)
      requires |log| > 0 && RemovesOnStable(log) && log[|log| - 1].seen == Some(snap)
      modifies this`spec, this`log
      ensures RemovesOnStable(log) && spec == Behind(guardRepairs, old(spec), snap, took).0 && SameButGuards()
      ensures log == Extended(old(log), RepairAsks(guardRepairs, old(spec), snap, took, done))
      ensures changed <==> Changed(RepairAsks(guardRepairs, old(spec), snap, took, done))
    {
      hide BehindOne, WantsGuard, RemovesOnStable;
      var changed4, changed6, carried;
      var mid, now;
      mid, changed4 := RaiseGuard(V4, snap);
      ghost var s4 := spec;
      now, changed6 := RaiseGuard(V6, mid);
      carried := Request(AskedPlans(spec, now, !snap.unstable, false));
      ghost var a, b := RaiseAsks(guardRepairs, old(spec), V4, snap, changed4), RaiseAsks(guardRepairs, s4, V6, mid, changed6);
      ghost var c := AskedPlans(spec, now, !snap.unstable, carried);
      ExtendedTwice(old(log), a, b);
      ExtendedTwice(old(log), a + b, [c]);
      ChangedJoin(a, b, c);
      changed, took, done := changed4 || changed6 || carried, Pair(changed4, changed6), carried;
    }

    /** Takes the guards out that are held. */
    method DropGuards() returns (changed: bool, ghost each: Pair<bool>)
      requires |log| > 0 && RemovesOnStable(log) && log[|log| - 1].Stable()
      modifies this`spec, this`log
      ensures RemovesOnStable(log) && spec == old(spec).(tempGuard := Pair(false, false))
      ensures log == Extended(old(log), DropAsks(old(spec), each)) && (changed <==> Changed(DropAsks(old(spec), each)))
    {
      hide RemovesOnStable;
      var changed4 := DropGuard(V4);
      var changed6 := DropGuard(V6);
      ghost var s := old(spec).tempGuard;
      ExtendedTwice(old(log), if s.v4 then [AskedNoGuard(V4, changed4)] else [], if s.v6 then [AskedNoGuard(V6, changed6)] else []);
      changed, each := changed4 || changed6, Pair(changed4, changed6);
    }

    /** Deals with a look that does not show the contract settled: repairs on an unclean one, waits on
        a clean one the kernel did not hold still for, and takes the guards out on any other. */
    method Deal(snap: Snap, ghost turn: Turn) returns (changed: bool, ghost asks: seq<Ask>)
      requires |log| > 0 && RemovesOnStable(log) && log[|log| - 1] == turn && turn.asks == [] && turn.seen == Some(snap)
      requires spec == turn.By() && !turn.Settled()
      modifies this`spec, this`log
      ensures RemovesOnStable(log) && SameButGuards() && log == Extended(old(log), asks)
      ensures Dealt(guardRepairs, turn.(asks := asks), spec) && (changed <==> Changed(asks))
    {
      hide PlanFamily, AllClean, RemovesOnStable, Dealt, Extended, DropAsks, RepairAsks, Behind, Changed;
      if !AllClean(spec, snap) {
        ghost var took, done;
        changed, took, done := Repair(snap);
        asks := RepairAsks(guardRepairs, turn.By(), snap, took, done);
        Repaired(guardRepairs, turn, took, done);
      } else if snap.unstable {
        changed, asks := false, [];
        ExtendedTwice(log, [], []);
        Waited(guardRepairs, turn);
        NothingChanged();
      } else {
        ghost var each;
        changed, each := DropGuards();
        asks := DropAsks(turn.By(), each);
        Dropped(guardRepairs, turn, each);
      }
    }

    /** Deals with the last look and looks again. */
    method Onward(snap: Snap, ghost before: seq<Turn>, ghost run: seq<Turn>) returns (look: Opt<Snap>, changed: bool, ghost more: seq<Turn>)
      requires RemovesOnStable(log) && log == before + run && Turns(guardRepairs, run)
      requires run[|run| - 1].seen == Some(snap) && spec == run[|run| - 1].By() && !run[|run| - 1].Settled()
      modifies this`spec, this`log
      ensures RemovesOnStable(log) && SameButGuards() && log == before + more
      ensures Turns(guardRepairs, more) && |more| == |run| + 1 && more[|run|] == Turn(spec, look, []) && more[0].spec == run[0].spec
      ensures AnyChanged(more) <==> AnyChanged(run) || changed
    {
      hide PlanFamily, AllClean, RemovesOnStable, AnyChanged, Dealt, Extended;
      ghost var turn := run[|run| - 1];
      ghost var asks;
      changed, asks := Deal(snap, turn);
      ExtendedRun(before, run, asks);
      look := Look();
      Advance(guardRepairs, run, asks, Turn(spec, look, []));
      more := run[|run| - 1 := turn.(asks := asks)] + [Turn(spec, look, [])];
      ConcatAssoc(before, run[|run| - 1 := turn.(asks := asks)], [Turn(spec, look, [])]);
    }

    /** The repair pass: it looks and deals with what it sees until it can conclude. */
    method Reconcile() returns (res: Result)
      requires RemovesOnStable(log)
      modifies this`spec, this`log
      ensures SameButGuards() && RemovesOnStable(log) && old(log) <= log
      ensures spec.config.IsGluetunSidecar() ==> res == Result(true, true, false, None) && log == old(log)
      ensures !spec.config.IsGluetunSidecar() ==> Concluded(guardRepairs, old(spec), log[|old(log)|..], spec, res)
    {
      hide PlanFamily, AllClean, RemovesOnStable, AnyChanged, Dealt, Turns, Extended, Concluded, Adopted;
      if spec.config.IsGluetunSidecar() {
        return Result(true, true, false, None);
      }
      var look := Look();
      ghost var run := [Turn(spec, look, [])];
      OneTurn(guardRepairs, run[0]);
      Since(old(log), run);
      if look.None? {
        res := Result(false, false, false, None);
        Unseen(guardRepairs, old(spec), run, spec, res);
        return;
      }
      var snap, repaired, round := look.v, false, 0;
      while true
        invariant SameButGuards() && RemovesOnStable(log) && log == old(log) + run
        invariant 0 <= round <= MAX_ROUNDS && |run| == round + 1 && run[round] == Turn(spec, Some(snap), [])
        invariant Turns(guardRepairs, run) && run[0].spec == old(spec) && (repaired <==> AnyChanged(run))
        decreases MAX_ROUNDS + 1 - round
      {
        Since(old(log), run);
        AdoptGuards(snap);
        if AllClean(spec, snap) && !snap.unstable && !spec.tempGuard.v4 && !spec.tempGuard.v6 {
          var healthy := PlanFamily(spec, snap, V4).Healthy() && PlanFamily(spec, snap, V6).Healthy();
          res := Result(true, healthy, repaired, Some(snap));
          Verified(guardRepairs, old(spec), run, spec, res);
          return;
        }
        if round >= MAX_ROUNDS && (snap.unstable || !AllClean(spec, snap)) {
          res := Result(false, false, repaired, Some(snap));
          Spent(guardRepairs, old(spec), run, spec, res);
          return;
        }
        var changed;
        look, changed, run := Onward(snap, old(log), run);
        repaired := repaired || changed;
        Since(old(log), run);
        if look.None? {
          res := Result(false, false, repaired, None);
          Unseen(guardRepairs, old(spec), run, spec, res);
          return;
        }
        snap := look.v;
        if round >= MAX_ROUNDS {
          break;
        }
        round := round + 1;
      }
      res := Result(false, false, repaired, Some(snap));
      Spent(guardRepairs, old(spec), run, spec, res);
    }
  }

  lemma Unseen(guards: bool, first: Spec, run: seq<Turn>, spec: Spec, res: Result)
    requires Turns(guards, run) && run[0].spec == first && |run| <= MAX_ROUNDS + 2 && (res.repaired <==> AnyChanged(run))
    requires run[|run| - 1].seen.None? && res.last.None? && !res.holds && !res.verified
    ensures Concluded(guards, first, run, spec, res)
  {
    hide Turns, AnyChanged, AllClean;
  }

  lemma Spent(guards: bool, first: Spec, run: seq<Turn>, spec: Spec, res: Result)
    requires Turns(guards, run) && run[0].spec == first && (res.repaired <==> AnyChanged(run))
    requires |run| == MAX_ROUNDS + 2 || (|run| == MAX_ROUNDS + 1 && !run[|run| - 1].Settled())
    requires res.last == run[|run| - 1].seen && !res.holds && !res.verified
    ensures Concluded(guards, first, run, spec, res)
  {
    hide Turns, AnyChanged, AllClean;
  }

  lemma Verified(guards: bool, first: Spec, run: seq<Turn>, spec: Spec, res: Result)
    requires Turns(guards, run) && run[0].spec == first && (res.repaired <==> AnyChanged(run)) && |run| <= MAX_ROUNDS + 1
    requires run[|run| - 1].Settled() && spec == run[|run| - 1].By() && res.last == run[|run| - 1].seen && res.holds
    requires res.verified <==> PlanFamily(spec, res.last.v, V4).Healthy() && PlanFamily(spec, res.last.v, V6).Healthy()
    ensures Concluded(guards, first, run, spec, res)
  {
    hide Turns, AnyChanged, AllClean, PlanFamily;
  }

  lemma OneTurn(guards: bool, turn: Turn)
    requires turn.asks == []
    ensures Turns(guards, [turn]) && !AnyChanged([turn])
  {
  }

  lemma Since(log: seq<Turn>, run: seq<Turn>)
    ensures (log + run)[|log|..] == run
  {
  }

  lemma ExtendedRun(log: seq<Turn>, run: seq<Turn>, asks: seq<Ask>)
    requires |run| > 0 && run[|run| - 1].asks == []
    ensures Extended(log + run, []) == log + run
    ensures Extended(log + run, asks) == log + run[|run| - 1 := run[|run| - 1].(asks := asks)]
  {
    ExtendedTwice(log + run, [], []);
    assert [] + asks == asks;
  }

  lemma Waited(guards: bool, turn: Turn)
    requires turn.seen.Some? && turn.seen.v.unstable && AllClean(turn.By(), turn.seen.v)
    ensures Dealt(guards, turn.(asks := []), turn.By())
  {
  }

  lemma Dropped(guards: bool, turn: Turn, changed: Pair<bool>)
    requires turn.Stable() && AllClean(turn.By(), turn.seen.v) && turn.By().tempGuard != Pair(false, false)
    ensures Dealt(guards, turn.(asks := DropAsks(turn.By(), changed)), turn.By().(tempGuard := Pair(false, false)))
  {
  }

  lemma Repaired(guards: bool, turn: Turn, took: Pair<bool>, changed: bool)
    requires turn.seen.Some? && !AllClean(turn.By(), turn.seen.v)
    ensures Dealt(guards, turn.(asks := RepairAsks(guards, turn.By(), turn.seen.v, took, changed)), Behind(guards, turn.By(), turn.seen.v, took).0)
  {
  }

  /** One more look, with what was asked on the last one. */
  lemma Advance(guards: bool, run: seq<Turn>, asks: seq<Ask>, turn: Turn)
    requires Turns(guards, run) && Dealt(guards, run[|run| - 1].(asks := asks), turn.spec) && turn.asks == []
    ensures var more := run[|run| - 1 := run[|run| - 1].(asks := asks)] + [turn];
            Turns(guards, more) && (AnyChanged(more) <==> AnyChanged(run) || Changed(asks))
  {
    hide Dealt, Changed;
    var n := |run| - 1;
    var more := run[n := run[n].(asks := asks)] + [turn];
    forall i, j | 0 <= i && j == i + 1 < |more|
      ensures Dealt(guards, more[i], more[j].spec)
    {
      if j <= n {
        assert Dealt(guards, run[i], run[j].spec);
      }
    }
    NothingChanged();
    assert more[n].asks == asks;
    if AnyChanged(run) {
      var i :| 0 <= i < |run| && Changed(run[i].asks);
      assert more[i] == run[i];
    }
  }

  lemma NothingChanged()
    ensures !Changed([])
  {
  }

  /** Every look but the last that leaves a plan unclean is followed, before the next look, by the
      request for both plans under the contract of that next look, with removals exactly if the
      kernel held still for it. */
  lemma UncleanIsRepaired(guards: bool, run: seq<Turn>, i: nat)
    requires Turns(guards, run) && i + 1 < |run| && run[i].seen.Some? && !AllClean(run[i].By(), run[i].seen.v)
    ensures |run[i].asks| > 0
    ensures var e := run[i].asks[|run[i].asks| - 1];
            && e.AskedPlans? && e.spec == run[i + 1].spec && (e.removals <==> run[i].Stable())
            && e.snap == run[i].seen.v.(rules := e.snap.rules)
  {
    hide AllClean, PlanFamily, Insert, GuardRule;
    assert Dealt(guards, run[i], run[i + 1].spec);
  }

  /** A first look that shows the contract settled ends the pass with nothing asked. */
  lemma FirstSettled(guards: bool, first: Spec, run: seq<Turn>, spec: Spec, res: Result)
    requires Concluded(guards, first, run, spec, res) && run[0].Settled()
    ensures res.holds && |run| == 1 && run[0].asks == [] && !res.repaired
  {
    hide AllClean, PlanFamily;
    assert |run| > 1 ==> Dealt(guards, run[0], run[1].spec);
  }

  /** A pass that reports the contract holds has seen, on a stable look, owned rules equal to the
      expected ones as a multiset, an exact exit table and no temporary guard, in both families. */
  lemma VerdictIsSound(s: Spec, snap: Snap)
    requires s.config.Valid() && !s.config.IsGluetunSidecar() && AllClean(s, snap) && s.tempGuard == Pair(false, false)
    requires Distinct(s.returnPath.v4) && Distinct(s.returnPath.v6)
    ensures FamilyHolds(s, snap, V4) && FamilyHolds(s, snap, V6)
  {
    CleanPlanHolds(s, snap, V4);
    CleanPlanHolds(s, snap, V6);
  }
}
