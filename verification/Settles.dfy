/**
A pass on a kernel that grants every request and holds still for every look: from a namespace in
order it ends after three looks at most, and says the contract holds.
*/
module Settles {
  import opened Rtnl
  import opened Contract
  import opened Comparison
  import opened OnePriority
  import opened Identities
  import opened Repair
  import opened Converge
  import opened Judges
  import opened Policy
  import opened Pass
  import opened ExitRoutes

  // ---- exact rules leave nothing to plan ----

  function ItemsSet(k: seq<Rule>): set<Shape> {
    set x | x in k :: Items(x)
  }

  lemma {:induction false} ItemsCount(k: seq<Rule>, p: nat)
    requires AllAt(k, p)
    ensures |ItemsSet(k)| <= |k| && (|ItemsSet(k)| == |k| <==> NoRepeat(k))
  {
    hide Items;
    if |k| > 0 {
      var x, rest := k[0], k[1..];
      assert k == [x] + rest && x in k;
      ItemsCount(rest, p);
      assert ItemsSet(k) == {Items(x)} + ItemsSet(rest);
      assert HasExact(rest, x) <==> Items(x) in ItemsSet(rest);
    }
  }

  lemma ExactHolds(k: seq<Rule>, want: seq<Rule>, p: nat)
    requires ExactRules(k, want) && NoRepeat(want) && AllAt(k, p) && AllAt(want, p)
    ensures Holds(k, want)
  {
    hide Items, NoRepeat, ItemsSet, ExactRules, HasExact, AllAt;
    ItemsCount(k, p);
    ItemsCount(want, p);
    SameItemSets(k, want);
    ExactFound(k, want, p);
    assert |k| == |want| by { SameLength(k, want); }
  }

  lemma SameLength(k: seq<Rule>, want: seq<Rule>)
    requires ExactRules(k, want)
    ensures |k| == |want|
  {
  }

  lemma ExactFound(k: seq<Rule>, want: seq<Rule>, p: nat)
    requires ExactRules(k, want) && AllAt(k, p) && AllAt(want, p)
    ensures forall x :: x in k ==> HasExact(want, x)
    ensures forall e :: e in want ==> HasExact(k, e)
  {
    hide Items;
    forall x | x in k
      ensures HasExact(want, x)
    {
      var e :| e in want && Items(x) == Items(e);
    }
    forall e | e in want
      ensures HasExact(k, e)
    {
      var x :| x in k && Items(x) == Items(e);
    }
  }

  lemma SameItemSets(k: seq<Rule>, want: seq<Rule>)
    requires ExactRules(k, want)
    ensures ItemsSet(k) == ItemsSet(want)
  {
    hide Items;
    forall i | i in ItemsSet(k)
      ensures i in ItemsSet(want)
    {
      var x :| x in k && Items(x) == i;
      var e :| e in want && Items(x) == Items(e);
    }
    forall i | i in ItemsSet(want)
      ensures i in ItemsSet(k)
    {
      var e :| e in want && Items(e) == i;
      var x :| x in k && Items(x) == Items(e);
    }
  }

  /** Rules that end exact at every owned priority have an empty plan. */
  lemma RoundLeavesNothing(s: Spec, f: Family, rules: seq<Rule>)
    requires NativeSpec(s, f) && SortedByPriority(rules) && AllFit(s, f, rules) && AllReady(s, f, rules)
    ensures Diff(s, f, Round(s, f, rules), false) == []
  {
    hide Round, Diff, RulesAt, ExactRules, Holds, SortedByPriority, AllFit, AllReady, NoRepeat, AllAt;
    var out := Round(s, f, rules);
    forall p | s.Owned(p)
      ensures Holds(At(out, p), RulesAt(s, f, p))
    {
      RoundConverges(s, f, rules, p);
      ExpectedDistinct(s, f, p);
      DistinctNoRepeat(RulesAt(s, f, p));
      AtIsAll(out, p);
      ExactHolds(At(out, p), RulesAt(s, f, p), p);
    }
    EmptyPlanIff(s, f, out);
  }

  lemma AtIsAll(k: seq<Rule>, p: nat)
    ensures AllAt(At(k, p), p)
  {
  }

  // ---- what granted requests do to what a look shows ----

  /** The rules and the exit table of a family with its plan carried out. */
  function Carried(snap: Snap, s: Spec, seen: Snap, f: Family): Snap {
    var plan := PlanFamily(s, seen, f);
    snap.(rules := snap.rules.With(f, CarryAll(plan.eff, f, seen.rules.At(f), plan.rules, Progress(snap.rules.At(f), {}, false), plan.rules).k),
          exit := snap.exit.With(f, RoutesDone(snap.exit.At(f), plan.routes, true)))
  }

  /** What the next look shows of a request with removals that is granted. */
  function After(c: Config, snap: Snap, e: Ask): Snap {
    match e
    case AskedGuard(f, _) => snap.(rules := snap.rules.With(f, AddRule(snap.rules.At(f), RuleOf(c, f, TempGuard))))
    case AskedPlans(s, seen, _, _) => Carried(Carried(snap, s, seen, V4), s, seen, V6)
    case AskedNoGuard(f, _) => snap.(rules := snap.rules.With(f, DeleteRule(snap.rules.At(f), RuleOf(c, f, TempGuard))))
  }

  function AfterAll(c: Config, snap: Snap, asks: seq<Ask>): Snap
    decreases |asks|
  {
    if |asks| == 0 then snap else AfterAll(c, After(c, snap, asks[0]), asks[1..])
  }

  /** The answer to a guard tells whether it is new. */
  predicate Truthful(c: Config, snap: Snap, asks: seq<Ask>)
    decreases |asks|
  {
    |asks| > 0 ==>
      && (asks[0].AskedGuard? ==> (asks[0].changed <==> !Duplicate(snap.rules.At(asks[0].f), RuleOf(c, asks[0].f, TempGuard))))
      && Truthful(c, After(c, snap, asks[0]), asks[1..])
  }

  /** Every look is stable and shows what was asked on the one before it. */
  ghost predicate Granting(c: Config, run: seq<Turn>) {
    && |run| > 0 && run[0].Stable()
    && forall i, j :: 0 <= i && j == i + 1 < |run| && run[i].seen.Some? ==>
         Truthful(c, run[i].seen.v, run[i].asks) && run[j].seen == Some(AfterAll(c, run[i].seen.v, run[i].asks))
  }

  /** The guards a granting kernel takes. */
  function Taken(c: Config, snap: Snap): Pair<bool> {
    Pair(!Duplicate(snap.rules.v4, RuleOf(c, V4, TempGuard)), !Duplicate(snap.rules.v6, RuleOf(c, V6, TempGuard)))
  }

  /** A family the plan of which one round carries out in full. */
  ghost predicate InOrder(s: Spec, snap: Snap, f: Family) {
    var eff, rules := Effective(s, snap, f), snap.rules.At(f);
    && NativeSpec(eff, f) && SortedByPriority(rules) && AllFit(eff, f, rules) && AllReady(eff, f, rules)
    && Apart(snap.exit.At(f), f, s.config.table, snap.exitIdx, Mode(s, snap, f))
  }

  /** Only the rules and the exit table of a family are another's. */
  predicate SameLook(a: Snap, b: Snap) {
    a == b.(rules := a.rules, exit := a.exit)
  }

  lemma PlanSame(s: Spec, a: Snap, b: Snap, f: Family)
    requires SameLook(a, b)
    ensures Effective(s, a, f) == Effective(s, b, f) && Mode(s, a, f) == Mode(s, b, f)
  {
  }

  /** The carried-out plan of a family in order leaves it clean. */
  lemma CarriedIsClean(s: Spec, snap: Snap, after: Snap, f: Family)
    requires InOrder(s, snap, f) && SameLook(after, snap)
    requires after.rules.At(f) == Round(Effective(s, snap, f), f, snap.rules.At(f))
    requires after.exit.At(f) == RoutesDone(snap.exit.At(f), PlanFamily(s, snap, f).routes, true)
    ensures PlanFamily(s, after, f).Clean()
  {
    hide Round, Diff, RoutesDone, ExitTableActions, Apart, ExactTable, Effective, Mode, AllFit, AllReady, SortedByPriority;
    PlanSame(s, after, snap, f);
    var eff := Effective(s, snap, f);
    EffectiveConfig(s, snap, f);
    RoundLeavesNothing(eff, f, snap.rules.At(f));
    TableSettles(snap.exit.At(f), f, s.config.table, snap.exitIdx, Mode(s, snap, f));
    ExitCleanIff(after.exit.At(f), f, s.config.table, snap.exitIdx, Mode(s, snap, f));
  }

  lemma EffectiveConfig(s: Spec, snap: Snap, f: Family)
    ensures Effective(s, snap, f).config == s.config && Effective(s, snap, f).tempGuard == s.tempGuard && Effective(s, snap, f).leave == s.leave
  {
  }

  lemma CarriedBoth(s: Spec, snap: Snap)
    requires !s.config.IsGluetun()
    ensures var out := Carried(Carried(snap, s, snap, V4), s, snap, V6);
            && SameLook(out, snap)
            && forall f :: out.rules.At(f) == Round(Effective(s, snap, f), f, snap.rules.At(f))
                           && out.exit.At(f) == RoutesDone(snap.exit.At(f), PlanFamily(s, snap, f).routes, true)
  {
    hide CarryAll, RoutesDone, Diff, ExitTableActions, Effective;
    forall f: Family
      ensures Round(Effective(s, snap, f), f, snap.rules.At(f)) == CarryAll(Effective(s, snap, f), f, snap.rules.At(f), PlanFamily(s, snap, f).rules, Progress(snap.rules.At(f), {}, false), PlanFamily(s, snap, f).rules).k
    {
    }
  }

  // ---- a look that is repaired ----

  /** A guard that is asked for is in the rules that are repaired. */
  lemma RaiseGranted(guards: bool, s: Spec, f: Family, snap: Snap, took: bool, rest: seq<Ask>)
    requires Truthful(s.config, snap, RaiseAsks(guards, s, f, snap, took) + rest)
    ensures var now := BehindOne(guards, s, f, snap, took).1;
            && AfterAll(s.config, snap, RaiseAsks(guards, s, f, snap, took) + rest) == AfterAll(s.config, now, rest)
            && Truthful(s.config, now, rest)
            && now == BehindOne(guards, s, f, snap, !Duplicate(snap.rules.At(f), RuleOf(s.config, f, TempGuard))).1
  {
    hide PlanFamily, RuleOf, Duplicate, Insert;
    var asks := RaiseAsks(guards, s, f, snap, took) + rest;
    if WantsGuard(guards, s, f, snap) {
      assert asks[0] == AskedGuard(f, took) && asks[1..] == rest;
    } else {
      assert asks == rest;
    }
  }

  lemma RepairGranted(guards: bool, s: Spec, snap: Snap, took: Pair<bool>, changed: bool)
    requires Truthful(s.config, snap, RepairAsks(guards, s, snap, took, changed))
    ensures var (s', now) := Behind(guards, s, snap, Taken(s.config, snap));
            && Behind(guards, s, snap, took) == (s', now) && s'.config == s.config && now.unstable == snap.unstable
            && AfterAll(s.config, snap, RepairAsks(guards, s, snap, took, changed)) == Carried(Carried(now, s', now, V4), s', now, V6)
  {
    hide BehindOne, RaiseAsks, RuleOf, Duplicate, Truthful, AfterAll, Carried;
    var c := s.config;
    var (s4, snap4) := BehindOne(guards, s, V4, snap, took.v4);
    var (s6, snap6) := BehindOne(guards, s4, V6, snap4, took.v6);
    var a, b := RaiseAsks(guards, s, V4, snap, took.v4), RaiseAsks(guards, s4, V6, snap4, took.v6);
    var e := AskedPlans(s6, snap6, !snap.unstable, changed);
    ConcatAssoc(a, b, [e]);
    BehindApart(guards, s, V4, snap, took.v4, Taken(c, snap).v4);
    RaiseGranted(guards, s, V4, snap, took.v4, b + [e]);
    RaiseGranted(guards, s4, V6, snap4, took.v6, [e]);
    OneAfter(c, snap6, e);
    BehindApart(guards, s4, V6, snap4, took.v6, Taken(c, snap).v6);
  }

  /** Whether a guard is taken shows in its family's rules alone. */
  lemma BehindApart(guards: bool, s: Spec, f: Family, snap: Snap, a: bool, b: bool)
    ensures var (s', now) := BehindOne(guards, s, f, snap, a);
            && s' == BehindOne(guards, s, f, snap, b).0 && s'.config == s.config && now.unstable == snap.unstable
            && forall g :: g != f ==> now.rules.At(g) == snap.rules.At(g)
  {
    hide WantsGuard, GuardRule, Insert;
  }

  lemma OneAfter(c: Config, snap: Snap, e: Ask)
    ensures AfterAll(c, snap, [e]) == After(c, snap, e)
  {
    assert [e][1..] == [];
  }

  /** A clean plan that expects no guard leaves none. */
  lemma NoGuardLeft(s: Spec, snap: Snap, f: Family)
    requires NativeSpec(Effective(s, snap, f), f) && !s.config.IsGluetunSidecar() && PlanFamily(s, snap, f).Clean() && !s.tempGuard.At(f)
    ensures !HasGuard(s, f, snap.rules.At(f))
  {
    hide Diff, RulesAt, Effective, ExitTableActions, Holds, Items;
    var eff, rules := Effective(s, snap, f), snap.rules.At(f);
    EffectiveConfig(s, snap, f);
    EmptyPlanHolds(eff, f, rules, TEMP_GUARD);
    NoGuardExpected(eff, f);
    NothingHeld(At(rules, TEMP_GUARD));
    if HasGuard(s, f, rules) {
      var r :| r in rules && r.priority == TEMP_GUARD && Items(r) == Items(GuardRule(s, f));
      AtMembers(rules, r);
    }
  }

  /** A pass can judge its families: a native contract, guards only where there can be some. */
  ghost predicate Judgeable(s: Spec) {
    && s.config.Valid() && !s.config.IsGluetun() && s.leave == Pair(false, false)
    && Distinct(s.returnPath.v4) && Distinct(s.returnPath.v6)
    && (s.tempGuard != Pair(false, false) ==> s.config.IsNativeOverlay())
  }

  lemma JudgeableNative(s: Spec, snap: Snap, f: Family)
    requires Judgeable(s)
    ensures NativeSpec(Effective(s, snap, f), f) && !s.config.IsGluetunSidecar()
  {
    EffectiveDistinct(s, snap, f);
  }

  lemma CleanAdoptsNothing(s: Spec, snap: Snap)
    requires Judgeable(s) && AllClean(s, snap)
    ensures Adopted(s, snap) == s
  {
    hide PlanFamily, HasGuard, Effective, NativeSpec;
    JudgeableNative(s, snap, V4);
    JudgeableNative(s, snap, V6);
    if !s.tempGuard.v4 {
      NoGuardLeft(s, snap, V4);
    }
    if !s.tempGuard.v6 {
      NoGuardLeft(s, snap, V6);
    }
  }

  /** After a granted repair in order, the next look is clean. */
  lemma RepairSettles(guards: bool, s: Spec, snap: Snap, took: Pair<bool>, changed: bool)
    requires Truthful(s.config, snap, RepairAsks(guards, s, snap, took, changed))
    requires var (s', now) := Behind(guards, s, snap, Taken(s.config, snap)); InOrder(s', now, V4) && InOrder(s', now, V6) && Judgeable(s')
    ensures var s' := Behind(guards, s, snap, took).0;
            var after := AfterAll(s.config, snap, RepairAsks(guards, s, snap, took, changed));
            AllClean(s', after) && Adopted(s', after) == s' && after.unstable == snap.unstable && Judgeable(s')
  {
    hide PlanFamily, Truthful, RepairAsks, Behind, Carried, AfterAll, InOrder, Adopted, Judgeable;
    RepairGranted(guards, s, snap, took, changed);
    var (s', now) := Behind(guards, s, snap, Taken(s.config, snap));
    var after := AfterAll(s.config, snap, RepairAsks(guards, s, snap, took, changed));
    assert !s'.config.IsGluetun() by { Native(s'); }
    CarriedBoth(s', now);
    CarriedIsClean(s', now, after, V4);
    CarriedIsClean(s', now, after, V6);
    CleanAdoptsNothing(s', after);
  }

  lemma Native(s: Spec)
    requires Judgeable(s)
    ensures !s.config.IsGluetun()
  {
  }

  // ---- a look the guards go on ----

  /** The guard is the contract's only rule at its priority, and its only mark on the contract. */
  lemma GuardAlone(s: Spec, t: Spec, f: Family, p: nat)
    requires s.config.IsNativeOverlay() && t == s.(tempGuard := t.tempGuard)
    ensures p != TEMP_GUARD ==> RulesAt(s, f, p) == RulesAt(t, f, p)
  {
    if p != TEMP_GUARD {
      hide RuleOf, AllPairs, OverlaySlots, TailSlots, RulesAt;
      RulesAtWritten(s, f, p);
      RulesAtWritten(t, f, p);
      WrittenTail(s, f, p);
      WrittenTail(t, f, p);
    }
  }

  /** What the contract writes at a priority other than the guard's is not in its second place. */
  lemma WrittenTail(s: Spec, f: Family, p: nat)
    requires s.config.IsNativeOverlay() && p != TEMP_GUARD
    ensures At(Written(s, f), p) ==
            At(RulesOf(s.config, f, [LocalGuard]), p)
            + At(RulesOf(s.config, f, OverlaySlots(s.config, f) + AllPairs(s.config, s.returnPath.At(f)) + TailSlots(s.config)), p)
  {
    hide RuleOf, AllPairs, OverlaySlots, TailSlots;
    var c := s.config;
    var tail := OverlaySlots(c, f) + AllPairs(c, s.returnPath.At(f)) + TailSlots(c);
    var guard: seq<Slot> := if s.tempGuard.At(f) then [TempGuard] else [];
    assert Slots(s, f) == [LocalGuard] + (guard + tail);
    RulesOfConcat(c, f, [LocalGuard], guard + tail);
    RulesOfConcat(c, f, guard, tail);
    AtConcat(RulesOf(c, f, [LocalGuard]), RulesOf(c, f, guard + tail), p);
    AtConcat(RulesOf(c, f, guard), RulesOf(c, f, tail), p);
    RuleAtPriority(c, f, TempGuard);
    assert At(RulesOf(c, f, guard), p) == [];
  }

  lemma RulesOfConcat(c: Config, f: Family, a: seq<Slot>, b: seq<Slot>)
    ensures RulesOf(c, f, a + b) == RulesOf(c, f, a) + RulesOf(c, f, b)
  {
    hide RuleOf;
  }

  /** The rules found at the guard's priority are the guard, once, and the request for it takes it. */
  lemma GuardGoes(s: Spec, f: Family, g: seq<Rule>)
    requires s.config.Valid() && s.config.IsNativeOverlay() && s.tempGuard.At(f) && AllAt(g, TEMP_GUARD) && Holds(g, RulesAt(s, f, TEMP_GUARD))
    ensures DeleteRule(g, RuleOf(s.config, f, TempGuard)) == []
  {
    hide RulesAt, SlotOf;
    var guard := RuleOf(s.config, f, TempGuard);
    GuardIsExpected(s, f);
    assert HasExact(g, guard);
    forall x | x in g
      ensures Items(x) == Items(guard)
    {
      var e :| e in RulesAt(s, f, TEMP_GUARD) && e.priority == x.priority && Items(e) == Items(x);
      var slot := ExpectedSlot(s, f, TEMP_GUARD, e);
      OnlyGuard(slot);
    }
    assert |g| > 0;
    assert g[0] in g;
    if |g| > 1 {
      NoRepeatPair(g, 0, 1);
    }
    GuardTaken(s.config, f, g[0]);
  }

  lemma OnlyGuard(slot: Slot)
    requires PriorityOf(slot) == TEMP_GUARD
    ensures slot == TempGuard
  {
  }

  lemma GuardTaken(c: Config, f: Family, x: Rule)
    requires Items(x) == Items(RuleOf(c, f, TempGuard)) && x.priority == TEMP_GUARD
    ensures DeleteMatches(RuleOf(c, f, TempGuard), x)
  {
  }

  /** Taking a family's guard out of clean rules leaves them clean without it. */
  lemma DropOne(s: Spec, t: Spec, f: Family, rules: seq<Rule>)
    requires NativeSpec(s, f) && s.config.IsNativeOverlay() && t == s.(tempGuard := t.tempGuard) && !t.tempGuard.At(f)
    requires Diff(s, f, rules, false) == []
    ensures Diff(t, f, if s.tempGuard.At(f) then DeleteRule(rules, RuleOf(s.config, f, TempGuard)) else rules, false) == []
  {
    hide Diff, RulesAt, RuleOf, Holds, DeleteRule;
    var guard := RuleOf(s.config, f, TempGuard);
    var out := if s.tempGuard.At(f) then DeleteRule(rules, guard) else rules;
    EmptyPlanIff(s, f, rules);
    forall p | t.Owned(p)
      ensures Holds(At(out, p), RulesAt(t, f, p))
    {
      assert Holds(At(rules, p), RulesAt(s, f, p));
      DeleteRuleAt(rules, guard, p);
      RuleAtPriority(s.config, f, TempGuard);
      GuardAlone(s, t, f, p);
      if p == TEMP_GUARD {
        NoGuardExpected(t, f);
        NothingHolds();
        if s.tempGuard.At(f) {
          AtIsAll(rules, p);
          GuardGoes(s, f, At(rules, p));
        } else {
          NoGuardExpected(s, f);
        }
      }
    }
    EmptyPlanIff(t, f, out);
  }

  lemma NothingHolds()
    ensures Holds([], [])
  {
  }

  /** What taking out the guards that are held leaves of a family's rules. */
  function Dropped(s: Spec, f: Family, rules: seq<Rule>): seq<Rule> {
    if s.tempGuard.At(f) then DeleteRule(rules, RuleOf(s.config, f, TempGuard)) else rules
  }

  lemma DropsGranted(s: Spec, snap: Snap, changed: Pair<bool>)
    ensures AfterAll(s.config, snap, DropAsks(s, changed)) == snap.(rules := Pair(Dropped(s, V4, snap.rules.v4), Dropped(s, V6, snap.rules.v6)))
  {
    hide DeleteRule, RuleOf, Carried;
    var a, b := AskedNoGuard(V4, changed.v4), AskedNoGuard(V6, changed.v6);
    OneAfter(s.config, snap, a);
    OneAfter(s.config, snap, b);
    OneAfter(s.config, After(s.config, snap, a), b);
    assert [a, b][1..] == [b];
    assert [a] + [b] == [a, b] && [a] + [] == [a] && [] + [b] == [b];
  }

  /** After the guards are taken out of a clean look, the next one is settled. */
  lemma DropSettles(s: Spec, snap: Snap, changed: Pair<bool>)
    requires Judgeable(s) && AllClean(s, snap) && s.tempGuard != Pair(false, false)
    ensures var t := s.(tempGuard := Pair(false, false));
            var after := AfterAll(s.config, snap, DropAsks(s, changed));
            AllClean(t, after) && Adopted(t, after) == t && after.unstable == snap.unstable && Judgeable(t)
  {
    hide AfterAll, DropAsks, DeleteRule, RuleOf, Adopted;
    var t := s.(tempGuard := Pair(false, false));
    var after := AfterAll(s.config, snap, DropAsks(s, changed));
    DropsGranted(s, snap, changed);
    DropFamily(s, t, snap, after, V4);
    DropFamily(s, t, snap, after, V6);
    CleanAdoptsNothing(t, after);
  }

  lemma DropFamily(s: Spec, t: Spec, snap: Snap, after: Snap, f: Family)
    requires Judgeable(s) && s.config.IsNativeOverlay() && t == s.(tempGuard := Pair(false, false)) && PlanFamily(s, snap, f).Clean()
    requires after == snap.(rules := after.rules) && after.rules.At(f) == Dropped(s, f, snap.rules.At(f))
    ensures PlanFamily(t, after, f).Clean()
  {
    hide Diff, DeleteRule, RuleOf, ExitTableActions;
    JudgeableNative(s, snap, f);
    var eff := Effective(s, snap, f);
    DropOne(eff, Effective(t, after, f), f, snap.rules.At(f));
  }

  // ---- the pass ----

  /** The last turn of a pass that is not settled was its last because it ran out. */
  lemma GoesOn(guards: bool, first: Spec, run: seq<Turn>, spec: Spec, res: Result, i: nat)
    requires Concluded(guards, first, run, spec, res) && i < |run| && i < MAX_ROUNDS && run[i].seen.Some?
    ensures run[i].Settled() ==> res.holds && |run| == i + 1
    ensures !run[i].Settled() ==> i + 1 < |run| && Dealt(guards, run[i], run[i + 1].spec)
  {
    hide AllClean, PlanFamily, RepairAsks, DropAsks, Behind;
    if i + 1 < |run| {
      assert Dealt(guards, run[i], run[i + 1].spec);
    }
  }

  /** What is behind the guards on a granting kernel is in order. */
  ghost predicate Orderly(guards: bool, s: Spec, snap: Snap) {
    var (s', now) := Behind(guards, s, snap, Taken(s.config, snap));
    Judgeable(s') && InOrder(s', now, V4) && InOrder(s', now, V6)
  }

  /** Dealing with a look leads to a clean one, and dealing with a clean one to a settled one. */
  lemma TurnSettles(guards: bool, turn: Turn, next: Turn)
    requires turn.Stable() && !turn.Settled() && Judgeable(turn.By()) && Dealt(guards, turn, next.spec)
    requires Truthful(turn.By().config, turn.seen.v, turn.asks) && next.seen == Some(AfterAll(turn.By().config, turn.seen.v, turn.asks))
    requires !AllClean(turn.By(), turn.seen.v) ==> Orderly(guards, turn.By(), turn.seen.v)
    ensures next.Stable() && next.By() == next.spec && AllClean(next.spec, next.seen.v) && Judgeable(next.spec) && next.spec.config == turn.By().config
    ensures AllClean(turn.By(), turn.seen.v) ==> next.Settled()
  {
    hide AllClean, PlanFamily, RepairAsks, DropAsks, Behind, Judgeable, InOrder, Truthful, AfterAll, Adopted, Taken;
    var s, snap := turn.By(), turn.seen.v;
    if !AllClean(s, snap) {
      var took, changed :| turn.asks == RepairAsks(guards, s, snap, took, changed) && next.spec == Behind(guards, s, snap, took).0;
      RepairSettles(guards, s, snap, took, changed);
      RepairGranted(guards, s, snap, took, changed);
    } else {
      var changed :| turn.asks == DropAsks(s, changed);
      DropSettles(s, snap, changed);
    }
  }

  lemma FirstLook(guards: bool, first: Spec, run: seq<Turn>, spec: Spec, res: Result)
    requires Concluded(guards, first, run, spec, res)
    ensures |run| > 0 && run[0].spec == first && run[0].By().config == first.config
  {
    hide Dealt, PlanFamily, AllClean;
  }

  lemma NextLook(c: Config, run: seq<Turn>, i: nat)
    requires Granting(c, run) && i + 1 < |run| && run[i].seen.Some?
    ensures Truthful(c, run[i].seen.v, run[i].asks) && run[i + 1].seen == Some(AfterAll(c, run[i].seen.v, run[i].asks))
  {
    hide Truthful, AfterAll;
    var j := i + 1;
    assert 0 <= i && j == i + 1 < |run|;
    assert run[j] == run[i + 1];
  }

  /** On a granting kernel, a pass over a namespace in order ends, within three looks, with the
      contract holding. */
  lemma PassSettles(guards: bool, first: Spec, run: seq<Turn>, spec: Spec, res: Result)
    requires Concluded(guards, first, run, spec, res) && Granting(first.config, run)
    requires Judgeable(run[0].By()) && Orderly(guards, run[0].By(), run[0].seen.v)
    ensures res.holds && |run| <= 3
  {
    hide AllClean, Concluded, Judgeable, Orderly, Truthful, AfterAll, Adopted, Dealt, Granting;
    FirstLook(guards, first, run, spec, res);
    FirstStable(first.config, run);
    GoesOn(guards, first, run, spec, res, 0);
    if !run[0].Settled() {
      NextLook(first.config, run, 0);
      TurnSettles(guards, run[0], run[1]);
      GoesOn(guards, first, run, spec, res, 1);
      if !run[1].Settled() {
        NextLook(first.config, run, 1);
        TurnSettles(guards, run[1], run[2]);
        GoesOn(guards, first, run, spec, res, 2);
      }
    }
  }

  lemma FirstStable(c: Config, run: seq<Turn>)
    requires Granting(c, run)
    ensures run[0].Stable()
  {
    hide Truthful, AfterAll;
  }
}
