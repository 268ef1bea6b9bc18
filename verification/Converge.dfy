/**
One repair round of a native contract, with every request granted and every deletion
approved: every owned priority ends with exactly its expected rules.
*/
module Converge {
  import opened Rtnl
  import opened Contract
  import opened Comparison
  import opened OnePriority
  import opened Copies
  import opened Identities
  import opened Repair

  // ---- the plan, one priority at a time ----

  function ActionsAt(acts: seq<Action>, p: nat): (r: seq<Action>)
    ensures forall a :: a in r ==> a in acts && a.priority == p
  {
    if |acts| == 0 then []
    else (if acts[0].priority == p then [acts[0]] else []) + ActionsAt(acts[1..], p)
  }

  lemma {:induction false} ActionsAtConcat(a: seq<Action>, b: seq<Action>, p: nat)
    ensures ActionsAt(a + b, p) == ActionsAt(a, p) + ActionsAt(b, p)
  {
    if |a| == 0 {
      assert a + b == b;
    } else {
      assert (a + b)[1..] == a[1..] + b;
      ActionsAtConcat(a[1..], b, p);
    }
  }

  /** Every action is at one priority. */
  predicate ActsAt(acts: seq<Action>, p: nat) {
    forall a :: a in acts ==> a.priority == p
  }

  lemma {:induction false} ActionsAtAll(acts: seq<Action>, p: nat, q: nat)
    requires ActsAt(acts, q)
    ensures ActionsAt(acts, p) == if p == q then acts else []
  {
    if |acts| > 0 {
      assert acts[0] in acts;
      ActionsAtAll(acts[1..], p, q);
    }
  }

  lemma FoundAt(st: DiffState, q: nat, one: Found, p: nat)
    requires ActsAt(one.removals, q) && (p == q || !(q in st.subbed && !one.subbed))
    ensures var next := st.After(q, one);
            if p == q then
              next.UsedAt(p) == one.used && (one.subbed ==> p in next.subbed)
              && ActionsAt(next.removals, p) == ActionsAt(st.removals, p) + one.removals
            else
              next.UsedAt(p) == st.UsedAt(p) && (p in next.subbed <==> p in st.subbed)
              && ActionsAt(next.removals, p) == ActionsAt(st.removals, p)
  {
    ActionsAtConcat(st.removals, one.removals, p);
    ActionsAtAll(one.removals, p, q);
    assert ActionsAt(st.removals, p) + [] == ActionsAt(st.removals, p);
  }

  lemma VerdictActs(want: seq<Rule>, used: set<nat>, subbed: bool, a: Rule)
    ensures var v := JudgeExpected(want, used, subbed, a);
            ActsAt(v.removals, a.priority) && (subbed ==> v.subbed) && v.used == JudgeExpected(want, used, false, a).used
  {
  }

  lemma JudgeHere(s: Spec, f: Family, all: seq<Rule>, st: DiffState, a: Rule, want: seq<Rule>)
    requires s.Owned(a.priority) && !s.Skipped(f, a.priority) && want == RulesAt(s, f, a.priority)
    ensures var p := a.priority;
            var v := JudgeExpected(want, st.UsedAt(p), p in st.subbed, a);
            var next := Judge(s, f, all, st, a);
            && next.UsedAt(p) == v.used && (p in next.subbed <==> v.subbed)
            && ActionsAt(next.removals, p) == ActionsAt(st.removals, p) + v.removals
  {
    var p := a.priority;
    var v := JudgeExpected(want, st.UsedAt(p), p in st.subbed, a);
    VerdictActs(want, st.UsedAt(p), p in st.subbed, a);
    FoundAt(st, p, v, p);
  }

  lemma FindingActs(s: Spec, f: Family, all: seq<Rule>, used: set<nat>, subbed: bool, a: Rule)
    ensures var one := Finding(s, f, all, used, subbed, a); ActsAt(one.removals, a.priority) && (subbed ==> one.subbed)
  {
    hide RulesAt, LeftReturnPath, ReturnPathShaped, LeftoverCopy, DeleteMayTake, MatchIndex;
  }

  lemma JudgeElsewhere(s: Spec, f: Family, all: seq<Rule>, st: DiffState, a: Rule, p: nat)
    requires a.priority != p
    ensures var next := Judge(s, f, all, st, a);
            && next.UsedAt(p) == st.UsedAt(p) && (p in next.subbed <==> p in st.subbed)
            && ActionsAt(next.removals, p) == ActionsAt(st.removals, p)
  {
    var q := a.priority;
    FindingActs(s, f, all, st.UsedAt(q), q in st.subbed, a);
    FoundAt(st, q, Finding(s, f, all, st.UsedAt(q), q in st.subbed, a), p);
  }

  lemma ConcatAssoc<T>(a: seq<T>, b: seq<T>, c: seq<T>)
    ensures (a + b) + c == a + (b + c)
  {
  }

  lemma {:induction false} ScanAt(s: Spec, f: Family, all: seq<Rule>, st: DiffState, rest: seq<Rule>, want: seq<Rule>, p: nat)
    requires s.Owned(p) && !s.Skipped(f, p) && want == RulesAt(s, f, p)
    ensures var out := Scan(s, f, all, st, rest);
            && out.UsedAt(p) == UsedBy(want, st.UsedAt(p), At(rest, p))
            && ActionsAt(out.removals, p) ==
               ActionsAt(st.removals, p) + Removals(want, st.UsedAt(p), p in st.subbed, At(rest, p))
    decreases |rest|
  {
    if |rest| > 0 {
      var next := Judge(s, f, all, st, rest[0]);
      if rest[0].priority == p {
        JudgeHere(s, f, all, st, rest[0], want);
        var v := JudgeExpected(want, st.UsedAt(p), p in st.subbed, rest[0]);
        VerdictActs(want, st.UsedAt(p), p in st.subbed, rest[0]);
        ScanAt(s, f, all, next, rest[1..], want, p);
        ScanStep(want, st.UsedAt(p), p in st.subbed, At(rest, p));
        ConcatAssoc(ActionsAt(st.removals, p), v.removals, Removals(want, v.used, v.subbed, At(rest[1..], p)));
      } else {
        JudgeElsewhere(s, f, all, st, rest[0], p);
        ScanAt(s, f, all, next, rest[1..], want, p);
      }
    }
  }

  lemma ScanStep(want: seq<Rule>, used: set<nat>, subbed: bool, g: seq<Rule>)
    requires |g| > 0
    ensures var v := JudgeExpected(want, used, subbed, g[0]);
            && Removals(want, used, subbed, g) == v.removals + Removals(want, v.used, v.subbed, g[1..])
            && UsedBy(want, used, g) == UsedBy(want, v.used, g[1..])
  {
  }

  // ---- the whole plan ----

  /** A native contract whose rules are all compared, the temporary guard only on an overlay. */
  ghost predicate NativeSpec(s: Spec, f: Family) {
    && s.config.Valid() && !s.config.IsGluetun() && !s.leave.At(f)
    && Distinct(s.returnPath.At(f))
    && (s.tempGuard.At(f) ==> s.config.IsNativeOverlay())
  }

  /** A removal of a rule found at an owned priority; a rebuild has something to put back. */
  ghost predicate RemovalOf(s: Spec, f: Family, actual: seq<Rule>, act: Action) {
    && s.Owned(act.priority) && act.rule in actual && act.rule.priority == act.priority
    && ((act.kind.Del? && OutOfReach(RulesAt(s, f, act.priority), act.rule))
        || (act.kind.Sub? && RulesAt(s, f, act.priority) != []))
  }

  ghost predicate AllRemovals(s: Spec, f: Family, actual: seq<Rule>, acts: seq<Action>) {
    forall act :: act in acts ==> RemovalOf(s, f, actual, act)
  }

  lemma NoLeftovers(s: Spec, f: Family, a: Rule)
    requires NativeSpec(s, f) && !s.Owned(a.priority)
    ensures !LeftoverCopy(s, f, a)
  {
    if LeftoverCopy(s, f, a) {
      OrderIsComplete(s, f, a.priority + 1);
    }
  }

  lemma {:induction false} JudgeAdds(s: Spec, f: Family, all: seq<Rule>, used: set<nat>, subbed: bool, a: Rule)
    requires NativeSpec(s, f) && a in all
    ensures AllRemovals(s, f, all, Finding(s, f, all, used, subbed, a).removals)
  {
    if !s.Owned(a.priority) {
      NoLeftovers(s, f, a);
    }
  }

  predicate SortedActions(acts: seq<Action>) {
    forall i, j :: 0 <= i < j < |acts| ==> acts[i].priority <= acts[j].priority
  }

  predicate UpTo(acts: seq<Action>, p: nat) {
    forall a :: a in acts ==> a.priority <= p
  }

  predicate Onward(k: seq<Rule>, p: nat) {
    forall x :: x in k ==> p <= x.priority
  }

  lemma {:induction false} ScanRemovals(s: Spec, f: Family, all: seq<Rule>, st: DiffState, rest: seq<Rule>, cur: nat)
    requires NativeSpec(s, f) && (forall x :: x in rest ==> x in all)
    requires SortedByPriority(rest) && Onward(rest, cur)
    requires AllRemovals(s, f, all, st.removals) && SortedActions(st.removals) && UpTo(st.removals, cur)
    ensures AllRemovals(s, f, all, Scan(s, f, all, st, rest).removals)
    ensures SortedActions(Scan(s, f, all, st, rest).removals)
    decreases |rest|
  {
    if |rest| > 0 {
      var a := rest[0];
      assert a in rest;
      var used, subbed := st.UsedAt(a.priority), a.priority in st.subbed;
      JudgeAdds(s, f, all, used, subbed, a);
      FindingActs(s, f, all, used, subbed, a);
      AppendRemovals(st.removals, Finding(s, f, all, used, subbed, a).removals, cur, a.priority);
      assert Onward(rest[1..], a.priority);
      ScanRemovals(s, f, all, Judge(s, f, all, st, a), rest[1..], a.priority);
    }
  }

  lemma AppendRemovals(acts: seq<Action>, more: seq<Action>, cur: nat, p: nat)
    requires SortedActions(acts) && UpTo(acts, cur) && cur <= p && ActsAt(more, p)
    ensures SortedActions(acts + more) && UpTo(acts + more, p)
  {
    var all := acts + more;
    forall i, j | 0 <= i < j < |all|
      ensures all[i].priority <= all[j].priority
    {
      if i < |acts| <= j {
        assert acts[i] in acts && more[j - |acts|] in more;
      } else if |acts| <= i {
        assert more[i - |acts|] in more && more[j - |acts|] in more;
      }
    }
  }

  lemma {:induction false} NothingLeft(s: Spec, f: Family, actual: seq<Rule>, p: nat)
    requires !s.Skipped(f, p)
    ensures LeftReturnPath(s, f, actual, p) == []
  {
    if |actual| > 0 {
      NothingLeft(s, f, actual[..|actual| - 1], p);
    }
  }

  // ---- the additions ----

  function RulesIn(acts: seq<Action>): (rs: seq<Rule>)
    ensures |rs| == |acts|
  {
    seq(|acts|, i requires 0 <= i < |acts| => acts[i].rule)
  }

  lemma RulesInConcat(a: seq<Action>, b: seq<Action>)
    ensures RulesIn(a + b) == RulesIn(a) + RulesIn(b)
  {
  }

  lemma {:induction false} CarryAdds(s: Spec, f: Family, actual: seq<Rule>, plan: seq<Action>, pr: Progress, adds: seq<Action>)
    requires AllAdds(adds)
    ensures CarryAll(s, f, actual, plan, pr, adds) == pr.(k := AddAll(pr.k, RulesIn(adds)))
    decreases |adds|
  {
    if |adds| > 0 {
      assert adds[0] in adds;
      assert RulesIn(adds)[1..] == RulesIn(adds[1..]);
      CarryAdds(s, f, actual, plan, Carry(s, f, actual, plan, pr, adds[0]), adds[1..]);
    }
  }

  lemma {:induction false} CarryConcat(s: Spec, f: Family, actual: seq<Rule>, plan: seq<Action>, pr: Progress, a: seq<Action>, b: seq<Action>)
    ensures CarryAll(s, f, actual, plan, pr, a + b) ==
            CarryAll(s, f, actual, plan, CarryAll(s, f, actual, plan, pr, a), b)
    decreases |a|
  {
    if |a| == 0 {
      assert a + b == b;
    } else {
      assert (a + b)[0] == a[0] && (a + b)[1..] == a[1..] + b;
      CarryConcat(s, f, actual, plan, Carry(s, f, actual, plan, pr, a[0]), a[1..], b);
    }
  }

  /** Adding rules, seen at one priority, is adding those of that priority. */
  lemma {:induction false} AddAllProjects(k: seq<Rule>, rs: seq<Rule>, p: nat)
    requires SortedByPriority(k)
    ensures SortedByPriority(AddAll(k, rs)) && At(AddAll(k, rs), p) == AddAll(At(k, p), At(rs, p))
    decreases |rs|
  {
    if |rs| > 0 {
      ExactAt(k, rs[0]);
      InsertSorted(k, rs[0]);
      InsertAt(k, rs[0], p);
      if rs[0].priority == p {
        InsertLast(At(k, p), rs[0]);
        assert At(rs, p)[1..] == At(rs[1..], p);
      }
      AddAllProjects(AddRule(k, rs[0]), rs[1..], p);
    }
  }

  lemma MissingAreWanted(want: seq<Rule>, used: set<nat>)
    ensures forall x :: x in Missing(want, used) ==> x in want
  {
    MissingFillsRest(want, used);
  }

  lemma AdditionRules(s: Spec, f: Family, st: DiffState, q: nat, p: nat)
    ensures At(RulesIn(AdditionsAt(s, f, st, false, q)), p) ==
            if p == q then Missing(RulesAt(s, f, q), st.UsedAt(q)) else []
  {
    var missing := Missing(RulesAt(s, f, q), st.UsedAt(q));
    MissingAreWanted(RulesAt(s, f, q), st.UsedAt(q));
    assert RulesIn(AddActions(q, missing)) == missing;
    if p == q {
      AtAll(missing, p);
    } else {
      AtAbsent(missing, p);
    }
  }

  /** The additions of a plan at a priority are its missing rules. */
  lemma {:induction false} AdditionsProject(s: Spec, f: Family, st: DiffState, order: seq<nat>, p: nat)
    requires Distinct(order)
    ensures At(RulesIn(Additions(s, f, st, false, order)), p) ==
            if p in order then Missing(RulesAt(s, f, p), st.UsedAt(p)) else []
  {
    if |order| > 0 {
      AdditionsProject(s, f, st, order[1..], p);
      AdditionRules(s, f, st, order[0], p);
      var here, rest := AdditionsAt(s, f, st, false, order[0]), Additions(s, f, st, false, order[1..]);
      RulesInConcat(here, rest);
      AtConcat(RulesIn(here), RulesIn(rest), p);
      if p == order[0] {
        assert p !in order[1..];
      }
    }
  }

  /** What a priority holds once the additions are made. */
  function Filled(s: Spec, f: Family, actual: seq<Rule>, p: nat): seq<Rule> {
    AddAll(At(actual, p), Missing(RulesAt(s, f, p), UsedBy(RulesAt(s, f, p), {}, At(actual, p))))
  }

  lemma OrderDistinct(c: Config)
    ensures Distinct(AddOrder(c))
  {
  }

  lemma FilledAfterAdds(s: Spec, f: Family, actual: seq<Rule>, p: nat)
    requires NativeSpec(s, f) && SortedByPriority(actual)
    ensures var adds := Additions(s, f, Scan(s, f, actual, START, actual), false, AddOrder(s.config));
            var k := AddAll(actual, RulesIn(adds));
            SortedByPriority(k) && At(k, p) == (if s.Owned(p) then Filled(s, f, actual, p) else At(actual, p))
  {
    var st := Scan(s, f, actual, START, actual);
    var adds := Additions(s, f, st, false, AddOrder(s.config));
    OrderDistinct(s.config);
    AdditionsProject(s, f, st, AddOrder(s.config), p);
    AddAllProjects(actual, RulesIn(adds), p);
    if s.Owned(p) {
      ScanAt(s, f, actual, START, actual, RulesAt(s, f, p), p);
    }
    if RulesAt(s, f, p) != [] {
      OrderIsComplete(s, f, p);
    } else {
      MissingNone(st.UsedAt(p));
      MissingNone(UsedBy([], {}, At(actual, p)));
    }
  }

  lemma MissingNone(used: set<nat>)
    ensures Missing([], used) == []
  {
  }

  // ---- the removals ----

  predicate OneSub(acts: seq<Action>) {
    |acts| > 0 ==> (acts[0].kind.Sub? ==> NoSub(acts[1..])) && OneSub(acts[1..])
  }

  lemma {:induction false} RemovalsOneSub(want: seq<Rule>, used: set<nat>, subbed: bool, g: seq<Rule>)
    ensures OneSub(Removals(want, used, subbed, g))
    ensures subbed ==> NoSub(Removals(want, used, subbed, g))
    decreases |g|
  {
    hide DeleteMayTake, MatchIndex;
    if |g| > 0 {
      var v := JudgeExpected(want, used, subbed, g[0]);
      RemovalsOneSub(want, v.used, v.subbed, g[1..]);
      var rest := Removals(want, v.used, v.subbed, g[1..]);
      if |v.removals| > 0 {
        assert (v.removals + rest)[1..] == rest;
      } else {
        assert v.removals + rest == rest;
      }
    }
  }

  /** The rules the priority is to end with. */
  function Final(s: Spec, f: Family, actual: seq<Rule>, p: nat): seq<Rule> {
    Ends(RulesAt(s, f, p), At(actual, p))
  }

  /** The state of one priority in the middle of the removals: what is still to do there
      ends as planned, and from the priority after cur on nothing has been removed yet. */
  ghost predicate OnTrack(s: Spec, f: Family, actual: seq<Rule>, k: seq<Rule>, rebuilt: set<nat>, cur: nat, rest: seq<Action>, p: nat) {
    var todo := ActionsAt(rest, p);
    && (s.Owned(p) ==> RunOne(RulesAt(s, f, p), todo, At(k, p)) == Final(s, f, actual, p))
    && (!s.Owned(p) ==> At(k, p) == At(actual, p))
    && (s.Owned(p) && p > cur ==> At(k, p) == Filled(s, f, actual, p))
    && OneSub(todo)
    && (!NoSub(todo) ==> |At(k, p)| <= MAX_CLEAR && p !in rebuilt)
    && (s.Owned(p) && NoSub(todo) && IsRebuilt(s, f, actual, p) ==> At(k, p) == RulesAt(s, f, p))
  }

  /** The plan rebuilds the priority. */
  predicate IsRebuilt(s: Spec, f: Family, actual: seq<Rule>, p: nat) {
    !NoSub(Removals(RulesAt(s, f, p), {}, false, At(actual, p)))
  }

  lemma {:induction false} NoneEarlier(acts: seq<Action>, p: nat)
    requires SortedActions(acts) && (acts == [] || p < acts[0].priority)
    ensures ActionsAt(acts, p) == []
  {
    if |acts| > 0 {
      assert acts[1..] == [] || acts[0].priority <= acts[1..][0].priority;
      NoneEarlier(acts[1..], p);
    }
  }

  lemma ActionsStep(acts: seq<Action>, p: nat)
    requires |acts| > 0
    ensures ActionsAt(acts, p) == if acts[0].priority == p then [acts[0]] + ActionsAt(acts[1..], p) else ActionsAt(acts[1..], p)
    ensures acts[0].priority == p ==> ActionsAt(acts, p)[0] == acts[0] && ActionsAt(acts, p)[1..] == ActionsAt(acts[1..], p)
  {
  }

  lemma {:induction false} DelStepAt(s: Spec, f: Family, actual: seq<Rule>, k: seq<Rule>, rebuilt: set<nat>, cur: nat, rest: seq<Action>, p: nat)
    requires |rest| > 0 && RemovalOf(s, f, actual, rest[0]) && rest[0].kind.Del? && cur <= rest[0].priority
    requires OnTrack(s, f, actual, k, rebuilt, cur, rest, p)
    ensures OnTrack(s, f, actual, DeleteRule(k, rest[0].rule), rebuilt, rest[0].priority, rest[1..], p)
  {
    hide RulesAt, At, Filled, DeleteMatches, Items, Removals, ActionsAt;
    var act := rest[0];
    ActionsStep(rest, p);
    DeleteRuleAt(k, act.rule, p);
    var todo := ActionsAt(rest, p);
    if act.priority == p {
      assert todo[0] == act;
      if !NoSub(todo[1..]) {
        var a :| a in todo[1..] && !a.kind.Del?;
        assert a in todo;
      }
      NothingTaken(RulesAt(s, f, p), act.rule);
    }
  }

  lemma NothingTaken(k: seq<Rule>, a: Rule)
    requires OutOfReach(k, a)
    ensures DeleteRule(k, a) == k
  {
  }

  /** Whatever was there before, a rebuild leaves the same. */
  lemma {:induction false} SubErases(want: seq<Rule>, acts: seq<Action>, k: seq<Rule>, k': seq<Rule>)
    requires (forall a :: a in acts ==> !a.kind.Add?) && !NoSub(acts)
    ensures RunOne(want, acts, k) == RunOne(want, acts, k')
    decreases |acts|
  {
    if acts[0].kind.Del? {
      var a :| a in acts && !a.kind.Del?;
      assert a in acts[1..];
      SubErases(want, acts[1..], DeleteRule(k, acts[0].rule), DeleteRule(k', acts[0].rule));
    }
  }

  /** A removal that waits at a priority that is rebuilt makes no difference. */
  lemma {:induction false} WaitStepAt(s: Spec, f: Family, actual: seq<Rule>, k: seq<Rule>, rebuilt: set<nat>, cur: nat, rest: seq<Action>, p: nat)
    requires |rest| > 0 && AllRemovals(s, f, actual, rest) && rest[0].kind.Del? && cur <= rest[0].priority
    requires OnTrack(s, f, actual, k, rebuilt, cur, rest, p) && IsRebuilt(s, f, actual, rest[0].priority)
    ensures OnTrack(s, f, actual, k, rebuilt, rest[0].priority, rest[1..], p)
  {
    hide RulesAt, At, ActionsAt, DeleteRule, DeleteMatches;
    var act := rest[0];
    assert act in rest;
    ActionsStep(rest, p);
    var todo := ActionsAt(rest, p);
    if act.priority == p {
      var more := todo[1..];
      assert todo[0] == act;
      if NoSub(more) {
        assert NoSub(todo);
        NothingTaken(RulesAt(s, f, p), act.rule);
      } else {
        var a :| a in more && !a.kind.Del?;
        assert a in todo;
        assert forall x :: x in more ==> x in rest && RemovalOf(s, f, actual, x);
        SubErases(RulesAt(s, f, p), more, At(k, p), DeleteRule(At(k, p), act.rule));
      }
    }
  }

  lemma {:induction false} SubStepAt(s: Spec, f: Family, actual: seq<Rule>, k: seq<Rule>, k': seq<Rule>, rebuilt: set<nat>, cur: nat, rest: seq<Action>, p: nat)
    requires |rest| > 0 && RemovalOf(s, f, actual, rest[0]) && rest[0].kind.Sub? && cur <= rest[0].priority
    requires OnTrack(s, f, actual, k, rebuilt, cur, rest, p)
    requires At(k', p) == if p == rest[0].priority then RulesAt(s, f, p) else At(k, p)
    ensures OnTrack(s, f, actual, k', rebuilt + {rest[0].priority}, rest[0].priority, rest[1..], p)
  {
    ActionsStep(rest, p);
  }

  // ---- what a round needs of the rules it finds ----

  /** A rebuild finds at most as many rules as it clears. */
  predicate Fits(s: Spec, f: Family, actual: seq<Rule>, p: nat) {
    !NoSub(Removals(RulesAt(s, f, p), {}, false, At(actual, p))) ==> |Filled(s, f, actual, p)| <= MAX_CLEAR
  }

  /** The rules missing at a priority. */
  function MissingAt(s: Spec, f: Family, actual: seq<Rule>, p: nat): seq<Rule> {
    Missing(RulesAt(s, f, p), UsedBy(RulesAt(s, f, p), {}, At(actual, p)))
  }

  /** The removal of a rule waits for another round: a rule of the next priority that it makes up
      for is missing, and not all such rules are there once the missing ones have been added. */
  predicate HeldUp(s: Spec, f: Family, actual: seq<Rule>, y: Rule) {
    var deps, next := Dependents(s, f, actual, y), y.priority + 1;
    && (exists d, m :: d in deps && m in MissingAt(s, f, actual, next) && Items(m) == Items(d))
    && (exists d :: d in deps && !HasExact(Filled(s, f, actual, next), d))
  }

  /** No removal of a priority that is not rebuilt is held up. */
  predicate Free(s: Spec, f: Family, actual: seq<Rule>, p: nat) {
    IsRebuilt(s, f, actual, p)
    || forall a :: a in Removals(RulesAt(s, f, p), {}, false, At(actual, p)) ==> !HeldUp(s, f, actual, a.rule)
  }

  /** What one priority needs: it settles by itself, and its removals are not held up. */
  predicate Ready(s: Spec, f: Family, actual: seq<Rule>, p: nat) {
    Settles(RulesAt(s, f, p), At(actual, p)) && Free(s, f, actual, p)
  }

  ghost predicate AllReady(s: Spec, f: Family, actual: seq<Rule>) {
    forall p :: s.Owned(p) ==> Ready(s, f, actual, p)
  }

  ghost predicate AllFit(s: Spec, f: Family, actual: seq<Rule>) {
    forall p :: s.Owned(p) ==> Fits(s, f, actual, p)
  }

  ghost predicate ReadyBelow(s: Spec, f: Family, actual: seq<Rule>, b: nat) {
    forall p: nat :: s.Owned(p) && p < b ==> Ready(s, f, actual, p)
  }

  predicate ActsBelow(acts: seq<Action>, b: nat) {
    forall a :: a in acts ==> a.priority < b
  }

  ghost predicate AllOnTrack(s: Spec, f: Family, actual: seq<Rule>, pr: Progress, cur: nat, rest: seq<Action>) {
    && SortedByPriority(pr.k)
    && (forall p :: OnTrack(s, f, actual, pr.k, pr.rebuilt, cur, rest, p))
    && (forall a :: a in rest ==> cur <= a.priority)
  }

  lemma FinalExact(s: Spec, f: Family, actual: seq<Rule>, p: nat)
    requires NativeSpec(s, f) && s.Owned(p) && Ready(s, f, actual, p)
    ensures ExactRules(Final(s, f, actual, p), RulesAt(s, f, p))
  {
    ExpectedDistinct(s, f, p);
    SettledEndsExact(RulesAt(s, f, p), At(actual, p), p);
  }

  /** A priority all of whose removals are done holds exactly its expected rules. */
  lemma DoneExact(s: Spec, f: Family, actual: seq<Rule>, b: nat, pr: Progress, cur: nat, rest: seq<Action>, p: nat)
    requires NativeSpec(s, f) && ReadyBelow(s, f, actual, b) && AllOnTrack(s, f, actual, pr, cur, rest)
    requires SortedActions(rest) && s.Owned(p) && p < b && (rest == [] || p < rest[0].priority)
    ensures ExactRules(At(pr.k, p), RulesAt(s, f, p))
  {
    NoneEarlier(rest, p);
    FinalExact(s, f, actual, p);
    assert OnTrack(s, f, actual, pr.k, pr.rebuilt, cur, rest, p);
  }

  lemma CopiesClear(s: Spec, f: Family, k: seq<Rule>, q: nat)
    requires NativeSpec(s, f) && RulesAt(s, f, q) != [] && q > 0
    requires ExactRules(At(k, q - 1), RulesAt(s, f, q - 1)) && AllAt(RulesAt(s, f, q), q)
    ensures NoneThere(At(k, q - 1), CopiesOf(RulesAt(s, f, q)))
    ensures NoneTaken(At(k, q - 1), CopiesOf(RulesAt(s, f, q)))
  {
    forall c | c in CopiesOf(RulesAt(s, f, q))
      ensures !Duplicate(At(k, q - 1), c) && OutOfReach(At(k, q - 1), c)
    {
      var i :| 0 <= i < |CopiesOf(RulesAt(s, f, q))| && CopiesOf(RulesAt(s, f, q))[i] == c;
      CopyClear(s, f, At(k, q - 1), RulesAt(s, f, q)[i], q);
    }
  }

  lemma CopyClear(s: Spec, f: Family, g: seq<Rule>, w: Rule, q: nat)
    requires NativeSpec(s, f) && q > 0 && w in RulesAt(s, f, q) && w.priority == q
    requires AllAt(g, q - 1) && ExactRules(g, RulesAt(s, f, q - 1))
    ensures !Duplicate(g, CopyOf(w)) && OutOfReach(g, CopyOf(w))
  {
    forall x | x in g
      ensures Identity(x) != Identity(CopyOf(w)) && !DeleteMatches(CopyOf(w), x)
    {
      CopyClearOf(s, f, w, q, x);
    }
  }

  lemma CopyClearOf(s: Spec, f: Family, w: Rule, q: nat, x: Rule)
    requires NativeSpec(s, f) && q > 0 && w in RulesAt(s, f, q) && w.priority == q
    requires x.priority == q - 1 && IsExpected(x, RulesAt(s, f, q - 1))
    ensures Identity(x) != Identity(CopyOf(w)) && !DeleteMatches(CopyOf(w), x)
  {
    var e :| e in RulesAt(s, f, q - 1) && Items(x) == Items(e);
    CopyApartFrom(s, f, w, q, e, x);
  }

  lemma CopyApartFrom(s: Spec, f: Family, w: Rule, q: nat, e: Rule, x: Rule)
    requires s.config.Valid() && q > 0 && w in RulesAt(s, f, q) && e in RulesAt(s, f, q - 1)
    requires x.priority == q - 1 && Items(x) == Items(e) && w.priority == q
    ensures Identity(x) != Identity(CopyOf(w)) && !DeleteMatches(CopyOf(w), x)
  {
    var sw := ExpectedSlot(s, f, q, w);
    var se := ExpectedSlot(s, f, q - 1, e);
    CopyIsApart(s.config, f, se, sw, x);
  }

  lemma GuardThere(s: Spec, f: Family, actual: seq<Rule>, b: nat, pr: Progress, cur: nat, rest: seq<Action>)
    requires NativeSpec(s, f) && ReadyBelow(s, f, actual, b) && AllOnTrack(s, f, actual, pr, cur, rest)
    requires SortedActions(rest) && |rest| > 0 && rest[0].priority < b
    ensures BehindGuard(s, f, pr, rest[0].priority)
  {
    if s.tempGuard.At(f) && InGuardRange(rest[0].priority) {
      DoneExact(s, f, actual, b, pr, cur, rest, TEMP_GUARD);
      GuardIsExpected(s, f);
      ExactAt(pr.k, GuardRule(s, f));
    }
  }

  lemma GoesBackExpected(s: Spec, f: Family, actual: seq<Rule>, p: nat)
    requires !s.leave.At(f)
    ensures GoesBack(s, f, actual, p) == RulesAt(s, f, p)
  {
  }

  lemma DependentsExpected(s: Spec, f: Family, actual: seq<Rule>, a: Rule, d: Rule)
    requires !s.leave.At(f) && d in Dependents(s, f, actual, a)
    ensures d in RulesAt(s, f, a.priority + 1)
  {
    hide RulesAt, GoesBack, Items;
    GoesBackExpected(s, f, actual, a.priority + 1);
  }

  lemma {:induction false} AdditionsHave(s: Spec, f: Family, st: DiffState, order: seq<nat>, a: Action)
    requires a in Additions(s, f, st, false, order)
    ensures a.priority in order && a.rule in Missing(RulesAt(s, f, a.priority), st.UsedAt(a.priority))
  {
    hide Missing, RulesAt;
    if a !in AdditionsAt(s, f, st, false, order[0]) {
      AdditionsHave(s, f, st, order[1..], a);
    }
  }

  lemma {:induction false} AdditionsHold(s: Spec, f: Family, st: DiffState, order: seq<nat>, p: nat, m: Rule)
    requires p in order && m in Missing(RulesAt(s, f, p), st.UsedAt(p))
    ensures Action(Add, p, m) in Additions(s, f, st, false, order)
  {
    hide Missing, RulesAt;
    if p == order[0] {
      var rules := Missing(RulesAt(s, f, p), st.UsedAt(p));
      var i :| 0 <= i < |rules| && rules[i] == m;
      assert AddActions(p, rules)[i] == Action(Add, p, m);
    } else {
      AdditionsHold(s, f, st, order[1..], p, m);
    }
  }

  /** The plan adds a rule like an expected one exactly if one like it is missing. */
  lemma AddedIff(s: Spec, f: Family, actual: seq<Rule>, d: Rule)
    requires NativeSpec(s, f) && SortedByPriority(actual) && d in RulesAt(s, f, d.priority)
    ensures AddedNow(Diff(s, f, actual, false), d) <==>
            exists m :: m in MissingAt(s, f, actual, d.priority) && Items(m) == Items(d)
  {
    var q, st := d.priority, Scan(s, f, actual, START, actual);
    hide Scan, RulesAt, Missing, Items, SortedByPriority, UsedBy, At, AddOrder;
    OrderIsComplete(s, f, q);
    ScanAt(s, f, actual, START, actual, RulesAt(s, f, q), q);
    assert MissingAt(s, f, actual, q) == Missing(RulesAt(s, f, q), st.UsedAt(q));
    PlanIs(s, f, actual);
    StartSorted(actual);
    ScanRemovals(s, f, actual, START, actual, 0);
    var plan, order := Diff(s, f, actual, false), AddOrder(s.config);
    hide Diff, AllRemovals;
    if AddedNow(plan, d) {
      var a :| a in plan && a.kind.Add? && a.priority == q && Items(a.rule) == Items(d);
      AddNotRemoval(s, f, actual, st.removals, a);
      AdditionsHave(s, f, st, order, a);
    }
    if exists m :: m in MissingAt(s, f, actual, q) && Items(m) == Items(d) {
      var m :| m in MissingAt(s, f, actual, q) && Items(m) == Items(d);
      AdditionsHold(s, f, st, order, q, m);
      assert Action(Add, q, m) in plan;
    }
  }

  lemma StartSorted(actual: seq<Rule>)
    ensures Onward(actual, 0) && SortedActions(START.removals) && UpTo(START.removals, 0)
  {
  }

  lemma AddNotRemoval(s: Spec, f: Family, actual: seq<Rule>, acts: seq<Action>, a: Action)
    requires AllRemovals(s, f, actual, acts) && a.kind.Add?
    ensures a !in acts
  {
  }

  /** While the next priority stands as the additions left it, a removal waits exactly if it is
      held up. */
  lemma WaitsIff(s: Spec, f: Family, actual: seq<Rule>, k: seq<Rule>, a: Rule)
    requires NativeSpec(s, f) && SortedByPriority(actual)
    requires RulesAt(s, f, a.priority + 1) != [] ==> At(k, a.priority + 1) == Filled(s, f, actual, a.priority + 1)
    ensures Waits(s, f, actual, Diff(s, f, actual, false), k, a) <==> HeldUp(s, f, actual, a)
  {
    hide Diff, RulesAt, Dependents, Filled, At, SortedByPriority, MissingAt, Items;
    var next := a.priority + 1;
    forall d | d in Dependents(s, f, actual, a)
      ensures AddedNow(Diff(s, f, actual, false), d) <==> exists m :: m in MissingAt(s, f, actual, next) && Items(m) == Items(d)
      ensures HasExact(k, d) <==> HasExact(Filled(s, f, actual, next), d)
    {
      DependentsExpected(s, f, actual, a, d);
      var slot := ExpectedSlot(s, f, next, d);
      AddedIff(s, f, actual, d);
      ExactAt(k, d);
    }
  }

  /** In the middle of the removals: from the next priority on nothing is removed yet. */
  lemma WaitsHere(s: Spec, f: Family, actual: seq<Rule>, pr: Progress, cur: nat, rest: seq<Action>, a: Rule)
    requires NativeSpec(s, f) && SortedByPriority(actual) && AllOnTrack(s, f, actual, pr, cur, rest) && cur <= a.priority
    ensures Waits(s, f, actual, Diff(s, f, actual, false), pr.k, a) <==> HeldUp(s, f, actual, a)
  {
    var next := a.priority + 1;
    if RulesAt(s, f, next) != [] {
      OrderIsComplete(s, f, next);
      assert OnTrack(s, f, actual, pr.k, pr.rebuilt, cur, rest, next);
    }
    hide Waits, HeldUp, OnTrack, RulesAt;
    WaitsIff(s, f, actual, pr.k, a);
  }

  lemma CarryDel(s: Spec, f: Family, actual: seq<Rule>, b: nat, pr: Progress, cur: nat, rest: seq<Action>)
    requires NativeSpec(s, f) && SortedByPriority(actual) && ReadyBelow(s, f, actual, b) && AllOnTrack(s, f, actual, pr, cur, rest)
    requires SortedActions(rest) && |rest| > 0 && AllRemovals(s, f, actual, rest) && rest[0].kind.Del? && rest[0].priority < b
    requires FromScan(s, f, actual, rest)
    ensures AllOnTrack(s, f, actual, Carry(s, f, actual, Diff(s, f, actual, false), pr, rest[0]), rest[0].priority, rest[1..])
  {
    hide Diff, Waits, HeldUp, Removals;
    GuardThere(s, f, actual, b, pr, cur, rest);
    var act := rest[0];
    assert act in rest;
    WaitsHere(s, f, actual, pr, cur, rest, act.rule);
    if Waits(s, f, actual, Diff(s, f, actual, false), pr.k, act.rule) {
      assert Ready(s, f, actual, act.priority);
      forall p
        ensures OnTrack(s, f, actual, pr.k, pr.rebuilt, act.priority, rest[1..], p)
      {
        WaitStepAt(s, f, actual, pr.k, pr.rebuilt, cur, rest, p);
      }
    } else {
      var k' := DeleteRule(pr.k, act.rule);
      WithoutSorted(pr.k, FirstMatch(pr.k, act.rule));
      forall p
        ensures OnTrack(s, f, actual, k', pr.rebuilt, act.priority, rest[1..], p)
      {
        DelStepAt(s, f, actual, pr.k, pr.rebuilt, cur, rest, p);
      }
    }
  }

  /** The actions are ones the scan asks for at their priorities. */
  ghost predicate FromScan(s: Spec, f: Family, actual: seq<Rule>, acts: seq<Action>) {
    forall a :: a in acts ==> a in Removals(RulesAt(s, f, a.priority), {}, false, At(actual, a.priority))
  }

  lemma RebuildPending(s: Spec, f: Family, actual: seq<Rule>, k: seq<Rule>, rebuilt: set<nat>, cur: nat, rest: seq<Action>)
    requires |rest| > 0 && rest[0].kind.Sub?
    requires OnTrack(s, f, actual, k, rebuilt, cur, rest, rest[0].priority)
    ensures rest[0].priority !in rebuilt && |At(k, rest[0].priority)| <= MAX_CLEAR
  {
    ActionsStep(rest, rest[0].priority);
    assert rest[0] in ActionsAt(rest, rest[0].priority);
  }

  /** A rebuild next to a priority that is exact changes its own priority and no other. */
  lemma RebuildBeside(s: Spec, f: Family, k: seq<Rule>, q: nat, p: nat)
    requires NativeSpec(s, f) && SortedByPriority(k) && q > 0 && RulesAt(s, f, q) != [] && |At(k, q)| <= MAX_CLEAR
    requires ExactRules(At(k, q - 1), RulesAt(s, f, q - 1))
    ensures var k' := Rebuild(k, q, RulesAt(s, f, q));
            && SortedByPriority(k')
            && At(k', p) == (if p == q then RulesAt(s, f, p) else At(k, p))
  {
    ExpectedDistinct(s, f, q);
    CopiesClear(s, f, k, q);
    RebuildSorted(k, q, RulesAt(s, f, q));
    RebuildAt(k, q, RulesAt(s, f, q), p);
  }

  lemma PriorIsExact(s: Spec, f: Family, actual: seq<Rule>, b: nat, pr: Progress, cur: nat, rest: seq<Action>)
    requires NativeSpec(s, f) && ReadyBelow(s, f, actual, b) && AllOnTrack(s, f, actual, pr, cur, rest)
    requires SortedActions(rest) && |rest| > 0 && rest[0].priority < b && RulesAt(s, f, rest[0].priority) != []
    ensures var q := rest[0].priority; q > 0 && ExactRules(At(pr.k, q - 1), RulesAt(s, f, q - 1))
  {
    hide RulesAt, At, ExactRules, AllOnTrack, ReadyBelow;
    OrderIsComplete(s, f, rest[0].priority);
    DoneExact(s, f, actual, b, pr, cur, rest, rest[0].priority - 1);
  }

  lemma SubOnTrack(s: Spec, f: Family, actual: seq<Rule>, b: nat, pr: Progress, cur: nat, rest: seq<Action>)
    requires NativeSpec(s, f) && ReadyBelow(s, f, actual, b) && AllOnTrack(s, f, actual, pr, cur, rest)
    requires SortedActions(rest) && |rest| > 0 && rest[0].priority < b && RemovalOf(s, f, actual, rest[0]) && rest[0].kind.Sub?
    ensures var q := rest[0].priority;
            var k' := Rebuild(pr.k, q, RulesAt(s, f, q));
            && q !in pr.rebuilt && SortedByPriority(k')
            && forall p :: OnTrack(s, f, actual, k', pr.rebuilt + {q}, q, rest[1..], p)
  {
    var q := rest[0].priority;
    var k' := Rebuild(pr.k, q, RulesAt(s, f, q));
    assert rest[0] in rest;
    RebuildPending(s, f, actual, pr.k, pr.rebuilt, cur, rest);
    PriorIsExact(s, f, actual, b, pr, cur, rest);
    RebuildBeside(s, f, pr.k, q, q);
    forall p
      ensures OnTrack(s, f, actual, k', pr.rebuilt + {q}, q, rest[1..], p)
    {
      RebuildBeside(s, f, pr.k, q, p);
      SubStepAt(s, f, actual, pr.k, k', pr.rebuilt, cur, rest, p);
    }
  }

  lemma CarrySub(s: Spec, f: Family, actual: seq<Rule>, b: nat, plan: seq<Action>, pr: Progress, cur: nat, rest: seq<Action>)
    requires NativeSpec(s, f) && ReadyBelow(s, f, actual, b) && AllOnTrack(s, f, actual, pr, cur, rest)
    requires SortedActions(rest) && |rest| > 0 && rest[0].priority < b && RemovalOf(s, f, actual, rest[0]) && rest[0].kind.Sub?
    ensures AllOnTrack(s, f, actual, Carry(s, f, actual, plan, pr, rest[0]), rest[0].priority, rest[1..])
  {
    GuardThere(s, f, actual, b, pr, cur, rest);
    SubOnTrack(s, f, actual, b, pr, cur, rest);
  }

  lemma CarryOne(s: Spec, f: Family, actual: seq<Rule>, b: nat, pr: Progress, cur: nat, rest: seq<Action>)
    requires NativeSpec(s, f) && SortedByPriority(actual) && ReadyBelow(s, f, actual, b) && AllOnTrack(s, f, actual, pr, cur, rest)
    requires SortedActions(rest) && |rest| > 0 && AllRemovals(s, f, actual, rest) && rest[0].priority < b
    requires FromScan(s, f, actual, rest)
    ensures AllOnTrack(s, f, actual, Carry(s, f, actual, Diff(s, f, actual, false), pr, rest[0]), rest[0].priority, rest[1..])
  {
    assert rest[0] in rest;
    if rest[0].kind.Del? {
      CarryDel(s, f, actual, b, pr, cur, rest);
    } else {
      CarrySub(s, f, actual, b, Diff(s, f, actual, false), pr, cur, rest);
    }
  }

  lemma {:induction false} CarryRemovals(s: Spec, f: Family, actual: seq<Rule>, b: nat, pr: Progress, cur: nat, rest: seq<Action>, more: seq<Action>)
      returns (last: nat)
    requires NativeSpec(s, f) && SortedByPriority(actual) && ReadyBelow(s, f, actual, b) && ActsBelow(rest, b)
    requires AllOnTrack(s, f, actual, pr, cur, rest + more)
    requires SortedActions(rest + more) && AllRemovals(s, f, actual, rest + more) && FromScan(s, f, actual, rest + more)
    ensures AllOnTrack(s, f, actual, CarryAll(s, f, actual, Diff(s, f, actual, false), pr, rest), last, more)
    ensures last == cur || last < b
    decreases |rest|
  {
    hide Carry, Diff, SortedByPriority, RulesAt, At, Ready, OnTrack, RemovalOf, Removals;
    last := cur;
    if |rest| == 0 {
      assert rest + more == more;
    } else {
      var all := rest + more;
      assert all[0] == rest[0] && rest[0] in rest && all[1..] == rest[1..] + more;
      CarryOne(s, f, actual, b, pr, cur, all);
      last := CarryRemovals(s, f, actual, b, Carry(s, f, actual, Diff(s, f, actual, false), pr, rest[0]), rest[0].priority, rest[1..], more);
    }
  }

  // ---- the round ----

  lemma StartsOnTrack(s: Spec, f: Family, actual: seq<Rule>)
    requires NativeSpec(s, f) && SortedByPriority(actual) && AllFit(s, f, actual)
    ensures var st := Scan(s, f, actual, START, actual);
            var adds := Additions(s, f, st, false, AddOrder(s.config));
            && AllOnTrack(s, f, actual, Progress(AddAll(actual, RulesIn(adds)), {}, false), 0, st.removals)
            && FromScan(s, f, actual, st.removals)
            && forall p :: s.Owned(p) ==> At(AddAll(actual, RulesIn(adds)), p) == Filled(s, f, actual, p)
  {
    var st := Scan(s, f, actual, START, actual);
    var k := AddAll(actual, RulesIn(Additions(s, f, st, false, AddOrder(s.config))));
    ScanRemovals(s, f, actual, START, actual, 0);
    forall p
      ensures SortedByPriority(k) && OnTrack(s, f, actual, k, {}, 0, st.removals, p)
      ensures s.Owned(p) ==> At(k, p) == Filled(s, f, actual, p)
    {
      FilledAfterAdds(s, f, actual, p);
      StartsAt(s, f, actual, k, p);
    }
    ScanAsks(s, f, actual);
    assert OnTrack(s, f, actual, k, {}, 0, st.removals, 0);
  }

  lemma ScanAsks(s: Spec, f: Family, actual: seq<Rule>)
    requires NativeSpec(s, f) && SortedByPriority(actual)
    ensures FromScan(s, f, actual, Scan(s, f, actual, START, actual).removals)
  {
    hide Scan, Removals, RulesAt, At, SortedByPriority, AllRemovals;
    var acts := Scan(s, f, actual, START, actual).removals;
    StartSorted(actual);
    StartHasNone(s, f, actual);
    ScanRemovals(s, f, actual, START, actual, 0);
    forall a | a in acts
      ensures a in Removals(RulesAt(s, f, a.priority), {}, false, At(actual, a.priority))
    {
      RemovalOwned(s, f, actual, acts, a);
      ScanAt(s, f, actual, START, actual, RulesAt(s, f, a.priority), a.priority);
      ActionIsAt(acts, a);
    }
  }

  lemma StartHasNone(s: Spec, f: Family, actual: seq<Rule>)
    ensures AllRemovals(s, f, actual, START.removals)
  {
  }

  lemma RemovalOwned(s: Spec, f: Family, actual: seq<Rule>, acts: seq<Action>, a: Action)
    requires AllRemovals(s, f, actual, acts) && a in acts
    ensures s.Owned(a.priority)
  {
  }

  lemma {:induction false} ActionIsAt(acts: seq<Action>, a: Action)
    requires a in acts
    ensures a in ActionsAt(acts, a.priority)
  {
    if acts[0] != a {
      ActionIsAt(acts[1..], a);
    }
  }

  lemma StartsAt(s: Spec, f: Family, actual: seq<Rule>, k: seq<Rule>, p: nat)
    requires NativeSpec(s, f) && SortedByPriority(actual) && AllFit(s, f, actual)
    requires At(k, p) == if s.Owned(p) then Filled(s, f, actual, p) else At(actual, p)
    requires AllRemovals(s, f, actual, Scan(s, f, actual, START, actual).removals)
    ensures OnTrack(s, f, actual, k, {}, 0, Scan(s, f, actual, START, actual).removals, p)
  {
    hide Scan, RulesAt, Removals, SortedByPriority, At, UsedBy, AllRemovals;
    var rest := Scan(s, f, actual, START, actual).removals;
    if s.Owned(p) {
      var want := RulesAt(s, f, p);
      ScanAt(s, f, actual, START, actual, want, p);
      assert ActionsAt(rest, p) == Removals(want, {}, false, At(actual, p));
      RemovalsOneSub(want, {}, false, At(actual, p));
      assert Fits(s, f, actual, p);
    } else {
      NoneThereAt(s, f, actual, rest, p);
    }
  }

  lemma {:induction false} NoneThereAt(s: Spec, f: Family, actual: seq<Rule>, acts: seq<Action>, p: nat)
    requires AllRemovals(s, f, actual, acts) && !s.Owned(p)
    ensures ActionsAt(acts, p) == []
  {
    if |acts| > 0 {
      assert acts[0] in acts;
      NoneThereAt(s, f, actual, acts[1..], p);
    }
  }

  lemma PlanIs(s: Spec, f: Family, actual: seq<Rule>)
    requires !s.leave.At(f)
    ensures var st := Scan(s, f, actual, START, actual);
            Diff(s, f, actual, false) == Additions(s, f, st, false, AddOrder(s.config)) + st.removals
  {
    NothingLeft(s, f, actual, BACKSTOP);
    NothingLeft(s, f, actual, RETURN_PATH);
  }

  /** The rules once the plan's additions are made, and its removals in the order found. */
  lemma RoundSplits(s: Spec, f: Family, actual: seq<Rule>)
    requires NativeSpec(s, f)
    ensures var st := Scan(s, f, actual, START, actual);
            var adds := Additions(s, f, st, false, AddOrder(s.config));
            Round(s, f, actual) ==
            CarryAll(s, f, actual, Diff(s, f, actual, false), Progress(AddAll(actual, RulesIn(adds)), {}, false), st.removals).k
  {
    var st := Scan(s, f, actual, START, actual);
    var adds := Additions(s, f, st, false, AddOrder(s.config));
    var plan := Diff(s, f, actual, false);
    var start := Progress(actual, {}, false);
    PlanIs(s, f, actual);
    CarryConcat(s, f, actual, plan, start, adds, st.removals);
    AdditionsAreAdds(s, f, st, AddOrder(s.config));
    CarryAdds(s, f, actual, plan, start, adds);
  }

  /** One round leaves exactly the expected rules at every owned priority and every other
      priority as it was. */
  lemma RoundConverges(s: Spec, f: Family, actual: seq<Rule>, p: nat)
    requires NativeSpec(s, f) && SortedByPriority(actual) && AllReady(s, f, actual) && AllFit(s, f, actual)
    ensures SortedByPriority(Round(s, f, actual))
    ensures s.Owned(p) ==> ExactRules(At(Round(s, f, actual), p), RulesAt(s, f, p))
    ensures !s.Owned(p) ==> At(Round(s, f, actual), p) == At(actual, p)
  {
    hide Scan, Additions, Diff, Round, CarryAll, SortedByPriority, AddAll, RulesIn, AddOrder, RulesAt, At, Ready, FromScan, Fits, Filled;
    var st := Scan(s, f, actual, START, actual);
    var adds := Additions(s, f, st, false, AddOrder(s.config));
    RoundSplits(s, f, actual);
    StartsOnTrack(s, f, actual);
    StartSorted(actual);
    StartHasNone(s, f, actual);
    ScanRemovals(s, f, actual, START, actual, 0);
    var mid := Progress(AddAll(actual, RulesIn(adds)), {}, false);
    var b := PastAll(st.removals, p);
    assert ReadyBelow(s, f, actual, b);
    assert st.removals + [] == st.removals;
    var last := CarryRemovals(s, f, actual, b, mid, 0, st.removals, []);
    var end := CarryAll(s, f, actual, Diff(s, f, actual, false), mid, st.removals);
    assert OnTrack(s, f, actual, end.k, end.rebuilt, last, [], p);
    if s.Owned(p) {
      DoneExact(s, f, actual, b, end, last, [], p);
    }
  }

  /** A priority past all of these. */
  lemma {:induction false} PastAll(acts: seq<Action>, p: nat) returns (b: nat)
    ensures ActsBelow(acts, b) && p < b
  {
    if |acts| == 0 {
      b := p + 1;
    } else {
      b := PastAll(acts[1..], p);
      b := if acts[0].priority < b then b else acts[0].priority + 1;
    }
  }

  /** What a namespace with no one else's rules in odd form looks like at a priority. */
  ghost predicate OrdinaryAt(s: Spec, f: Family, actual: seq<Rule>, p: nat) {
    PlainTwins(RulesAt(s, f, p), At(actual, p)) && NoTwins(RulesAt(s, f, p), At(actual, p))
  }

  lemma OrdinaryIsReady(s: Spec, f: Family, actual: seq<Rule>, p: nat)
    requires NativeSpec(s, f) && s.Owned(p)
    requires OrdinaryAt(s, f, actual, p) && OrdinaryAt(s, f, actual, p + 1)
    ensures Ready(s, f, actual, p)
  {
    ExpectedDistinct(s, f, p);
    ExpectedDistinct(s, f, p + 1);
    PlainSettles(RulesAt(s, f, p), At(actual, p), p);
    NoTwinsNoneRefused(RulesAt(s, f, p + 1), At(actual, p + 1), p + 1);
    hide Settles, OrdinaryAt, RulesAt, Removals, At;
    forall a | a in Removals(RulesAt(s, f, p), {}, false, At(actual, p))
      ensures !HeldUp(s, f, actual, a.rule)
    {
      DelsAreUncovered(RulesAt(s, f, p), {}, false, At(actual, p), a);
      NoneHeldUp(s, f, actual, a.rule);
    }
  }

  lemma NoneHeldUp(s: Spec, f: Family, actual: seq<Rule>, y: Rule)
    requires NativeSpec(s, f) && NoneThere(At(actual, y.priority + 1), MissingAt(s, f, actual, y.priority + 1))
    ensures !HeldUp(s, f, actual, y)
  {
    hide RulesAt, At, Dependents, Filled, MissingAt, NoneThere;
    forall d | d in Dependents(s, f, actual, y)
      ensures HasExact(Filled(s, f, actual, y.priority + 1), d)
    {
      DependentsExpected(s, f, actual, y, d);
      FilledIs(s, f, actual, y.priority + 1, d);
    }
  }

  lemma FilledIs(s: Spec, f: Family, actual: seq<Rule>, p: nat, d: Rule)
    requires NativeSpec(s, f) && d in RulesAt(s, f, p) && NoneThere(At(actual, p), MissingAt(s, f, actual, p))
    ensures HasExact(Filled(s, f, actual, p), d)
  {
    var want, g := RulesAt(s, f, p), At(actual, p);
    ExpectedDistinct(s, f, p);
    assert want[0..] == want;
    MissingDistinct(want, UsedBy(want, {}, g), 0);
    AddAllNew(g, Missing(want, UsedBy(want, {}, g)), p);
    AdditionsComplete(want, g, d);
    var x :| x in g + Missing(want, UsedBy(want, {}, g)) && Items(x) == Items(d);
  }

  /** Whatever strays stand in it, one round brings an ordinary namespace to the contract. */
  lemma OrdinaryConverges(s: Spec, f: Family, actual: seq<Rule>, p: nat)
    requires NativeSpec(s, f) && SortedByPriority(actual) && AllFit(s, f, actual)
    requires forall q :: OrdinaryAt(s, f, actual, q)
    ensures s.Owned(p) ==> ExactRules(At(Round(s, f, actual), p), RulesAt(s, f, p))
  {
    forall q | s.Owned(q)
      ensures Ready(s, f, actual, q)
    {
      OrdinaryIsReady(s, f, actual, q);
    }
    RoundConverges(s, f, actual, p);
  }
}
