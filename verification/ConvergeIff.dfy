/**
When one round converges, exactly: the lowest priority that is not ready does not end with its
expected rules, and nothing the round does later puts that right.
*/
module ConvergeIff {
  import opened Rtnl
  import opened Contract
  import opened Comparison
  import opened OnePriority
  import opened Copies
  import opened Identities
  import opened Repair
  import opened Converge

  // ---- a rebuild does not put right the priority before ----

  lemma SameCount(a: multiset<Rule>, b: multiset<Rule>)
    requires a <= b && |a| >= |b|
    ensures a == b
  {
    assert b == a + (b - a);
  }

  lemma ExactByCount(a: seq<Rule>, b: seq<Rule>, want: seq<Rule>)
    requires multiset(a) == multiset(b) && ExactRules(a, want)
    ensures ExactRules(b, want)
  {
    assert |a| == |multiset(a)| == |multiset(b)| == |b|;
    assert forall x :: x in a <==> x in b by {
      assert forall x :: x in a <==> x in multiset(a);
      assert forall x :: x in b <==> x in multiset(b);
    }
  }

  lemma DeleteCount(k: seq<Rule>, a: Rule)
    ensures multiset(DeleteRule(k, a)) <= multiset(k) && |DeleteRule(k, a)| >= |k| - 1
  {
    var i := FirstMatch(k, a);
    if i < |k| {
      assert k == k[..i] + [k[i]] + k[i + 1..];
    }
  }

  lemma {:induction false} DeleteAllCount(k: seq<Rule>, rs: seq<Rule>)
    ensures multiset(DeleteAll(k, rs)) <= multiset(k) && |DeleteAll(k, rs)| >= |k| - |rs|
    decreases |rs|
  {
    if |rs| > 0 {
      DeleteCount(k, rs[0]);
      DeleteAllCount(DeleteRule(k, rs[0]), rs[1..]);
    }
  }

  lemma {:induction false} DeleteAllIn(k: seq<Rule>, rs: seq<Rule>, p: nat)
    requires AllAt(rs, p)
    ensures At(DeleteAll(k, rs), p) == DeleteAll(At(k, p), rs)
    decreases |rs|
  {
    if |rs| > 0 {
      assert rs[0] in rs;
      DeleteRuleAt(k, rs[0], p);
      DeleteAllIn(DeleteRule(k, rs[0]), rs[1..], p);
    }
  }

  lemma {:induction false} DeleteAllOut(k: seq<Rule>, rs: seq<Rule>, p: nat, q: nat)
    requires AllAt(rs, p) && q != p
    ensures At(DeleteAll(k, rs), q) == At(k, q)
    decreases |rs|
  {
    if |rs| > 0 {
      assert rs[0] in rs;
      DeleteRuleAt(k, rs[0], q);
      DeleteAllOut(DeleteRule(k, rs[0]), rs[1..], p, q);
    }
  }

  lemma {:induction false} ClearOut(k: seq<Rule>, p: nat, n: nat, q: nat)
    requires q != p
    ensures At(Clear(k, p, n), q) == At(k, q)
    decreases n
  {
    if n > 0 {
      DeletePriorityAt(k, p, q);
      ClearOut(DeletePriority(k, p), p, n - 1, q);
    }
  }

  /** Rules added one by one go behind the ones there, those that are refused left out. */
  lemma {:induction false} InstalledAt(k: seq<Rule>, rs: seq<Rule>, p: nat)
    requires SortedByPriority(k) && AllAt(rs, p)
    ensures At(AddAll(k, rs), p) == At(k, p) + Installed(k, rs)
    decreases |rs|
  {
    hide At, AddRule, SortedByPriority, Duplicate;
    if |rs| == 0 {
      assert At(k, p) + [] == At(k, p);
    } else {
      var new1 := if Duplicate(k, rs[0]) then [] else [rs[0]];
      assert rs[0] in rs;
      InstalledStep(k, rs[0]);
      InstalledAt(AddRule(k, rs[0]), rs[1..], p);
      ConcatAssoc(At(k, p), new1, Installed(AddRule(k, rs[0]), rs[1..]));
    }
  }

  lemma InstalledStep(k: seq<Rule>, r: Rule)
    requires SortedByPriority(k)
    ensures SortedByPriority(AddRule(k, r))
    ensures At(AddRule(k, r), r.priority) == At(k, r.priority) + if Duplicate(k, r) then [] else [r]
  {
    hide At, Insert, SortedByPriority, Duplicate;
    if Duplicate(k, r) {
      assert At(k, r.priority) + [] == At(k, r.priority);
    } else {
      InsertSorted(k, r);
      InsertAt(k, r, r.priority);
    }
  }

  lemma {:induction false} InstalledIn(k: seq<Rule>, rs: seq<Rule>, c: Rule)
    requires c in Installed(k, rs)
    ensures c in rs
    decreases |rs|
  {
    hide Duplicate, AddRule;
    if c != rs[0] {
      InstalledIn(AddRule(k, rs[0]), rs[1..], c);
    }
  }

  lemma CopiesStand(want: seq<Rule>, q: nat)
    requires q > 0 && AllAt(want, q)
    ensures AllAt(CopiesOf(want), q - 1)
    ensures forall c :: c in CopiesOf(want) ==> exists w :: w in want && c == CopyOf(w)
  {
    forall c | c in CopiesOf(want)
      ensures c.priority == q - 1 && exists w :: w in want && c == CopyOf(w)
    {
      var i :| 0 <= i < |want| && CopiesOf(want)[i] == c;
      assert want[i] in want;
    }
  }

  /** Before the copies go, every other priority but the one before is as it was. */
  lemma RefilledOut(k: seq<Rule>, q: nat, want: seq<Rule>, p: nat)
    requires SortedByPriority(k) && q > 0 && AllAt(want, q) && p != q
    ensures At(Refilled(k, q, want), p) == At(AddAll(k, CopiesOf(want)), p)
    ensures p != q - 1 ==> At(AddAll(k, CopiesOf(want)), p) == At(k, p)
  {
    var copies := CopiesOf(want);
    CopiesStand(want, q);
    var k1 := AddAll(k, copies);
    AddAllSorted(k, copies);
    ClearOut(k1, q, MAX_CLEAR, p);
    ClearSorted(k1, q, MAX_CLEAR);
    AddAllElsewhere(Clear(k1, q, MAX_CLEAR), want, p);
    if p != q - 1 {
      AddAllElsewhere(k, copies, p);
    }
  }

  /** Where a rebuild can stop. */
  lemma RebuildForms(k: seq<Rule>, q: nat, want: seq<Rule>)
    requires q > 0 && want != [] && AllAt(want, q)
    ensures var k1, k2 := AddAll(k, CopiesOf(want)), Refilled(k, q, want);
            Rebuild(k, q, want) == k1 || Rebuild(k, q, want) == k2 || Rebuild(k, q, want) == DeleteAll(k2, Installed(k, CopiesOf(want)))
  {
    hide AddAll, Clear, CopiesOf, Confirmed, Installed;
  }

  /** What a rebuild can do to the priority before, and to the others. */
  lemma RebuildOut(k: seq<Rule>, q: nat, want: seq<Rule>, p: nat)
    requires SortedByPriority(k) && q > 0 && want != [] && AllAt(want, q) && p != q
    ensures p != q - 1 ==> At(Rebuild(k, q, want), p) == At(k, p)
    ensures p == q - 1 ==>
              var s, new1 := At(k, p), Installed(k, CopiesOf(want));
              At(Rebuild(k, q, want), p) == s + new1 || At(Rebuild(k, q, want), p) == DeleteAll(s + new1, new1)
  {
    hide AddAll, Clear, At, Installed, SortedByPriority, CopiesOf, Rebuild, Refilled, DeleteAll;
    CopiesStand(want, q);
    RefilledOut(k, q, want, p);
    InstalledAt(k, CopiesOf(want), q - 1);
    RebuildForms(k, q, want);
    var new1, k2 := Installed(k, CopiesOf(want)), Refilled(k, q, want);
    forall c | c in new1
      ensures c.priority == q - 1
    {
      InstalledIn(k, CopiesOf(want), c);
    }
    if p == q - 1 {
      DeleteAllIn(k2, new1, p);
    } else {
      DeleteAllOut(k2, new1, q - 1, p);
    }
  }

  lemma CopyUnexpected(s: Spec, f: Family, q: nat, c: Rule)
    requires NativeSpec(s, f) && q > 0 && AllAt(RulesAt(s, f, q), q) && c in CopiesOf(RulesAt(s, f, q))
    ensures !IsExpected(c, RulesAt(s, f, q - 1))
  {
    hide RulesAt;
    CopiesStand(RulesAt(s, f, q), q);
    var w :| w in RulesAt(s, f, q) && c == CopyOf(w);
    if IsExpected(c, RulesAt(s, f, q - 1)) {
      CopyClearOf(s, f, w, q, c);
    }
  }

  lemma CopiesNeverFit(s: seq<Rule>, new1: seq<Rule>, end: seq<Rule>, want: seq<Rule>)
    requires (forall c :: c in new1 ==> !IsExpected(c, want)) && (end == s + new1 || end == DeleteAll(s + new1, new1))
    requires ExactRules(end, want)
    ensures ExactRules(s, want)
  {
    if end == s + new1 {
      assert new1 == [] by {
        assert forall c :: c in new1 ==> c in end;
        assert forall i :: 0 <= i < |new1| ==> new1[i] in new1;
      }
      assert end == s;
    } else {
      DeleteAllCount(s + new1, new1);
      assert multiset(s + new1) == multiset(s) + multiset(new1);
      forall x
        ensures multiset(end)[x] <= multiset(s)[x]
      {
        if x in new1 {
          assert x !in end;
        } else {
          assert x !in multiset(new1);
        }
      }
      SameCount(multiset(end), multiset(s));
      ExactByCount(end, s, want);
    }
  }

  lemma RebuildKeepsOff(s: Spec, f: Family, k: seq<Rule>, q: nat)
    requires NativeSpec(s, f) && SortedByPriority(k) && q > 0 && RulesAt(s, f, q) != [] && AllAt(RulesAt(s, f, q), q)
    requires !ExactRules(At(k, q - 1), RulesAt(s, f, q - 1))
    ensures !ExactRules(At(Rebuild(k, q, RulesAt(s, f, q)), q - 1), RulesAt(s, f, q - 1))
  {
    hide RulesAt, ExactRules, SortedByPriority, At, Rebuild, Installed, CopiesOf, DeleteAll, IsExpected;
    var want, new1 := RulesAt(s, f, q), Installed(k, CopiesOf(RulesAt(s, f, q)));
    RebuildOut(k, q, want, q - 1);
    forall c | c in new1
      ensures !IsExpected(c, RulesAt(s, f, q - 1))
    {
      InstalledIn(k, CopiesOf(want), c);
      CopyUnexpected(s, f, q, c);
    }
    var end := At(Rebuild(k, q, want), q - 1);
    if ExactRules(end, RulesAt(s, f, q - 1)) {
      CopiesNeverFit(At(k, q - 1), new1, end, RulesAt(s, f, q - 1));
    }
  }

  lemma RebuildAfterKeepsOff(s: Spec, f: Family, k: seq<Rule>, q: nat, p: nat)
    requires NativeSpec(s, f) && SortedByPriority(k) && q > p && RulesAt(s, f, q) != []
    requires !ExactRules(At(k, p), RulesAt(s, f, p))
    ensures var k' := Rebuild(k, q, RulesAt(s, f, q)); SortedByPriority(k') && !ExactRules(At(k', p), RulesAt(s, f, p))
  {
    hide ExactRules, RulesAt, SortedByPriority, At, Rebuild;
    ExpectedDistinct(s, f, q);
    RebuildSorted(k, q, RulesAt(s, f, q));
    if q == p + 1 {
      RebuildKeepsOff(s, f, k, q);
    } else {
      RebuildOut(k, q, RulesAt(s, f, q), p);
    }
  }

  lemma LaterKeepsOff(s: Spec, f: Family, actual: seq<Rule>, plan: seq<Action>, pr: Progress, act: Action, p: nat)
    requires NativeSpec(s, f) && SortedByPriority(pr.k) && RemovalOf(s, f, actual, act) && act.priority > p
    requires !ExactRules(At(pr.k, p), RulesAt(s, f, p))
    ensures var k' := Carry(s, f, actual, plan, pr, act).k; SortedByPriority(k') && !ExactRules(At(k', p), RulesAt(s, f, p))
  {
    hide ExactRules, RulesAt, SortedByPriority, At, Rebuild, BehindGuard, Waits, DeleteRule;
    if act.kind.Del? {
      DeleteRuleAt(pr.k, act.rule, p);
      DeleteSorted(pr.k, act.rule);
    } else {
      GoesBackExpected(s, f, actual, act.priority);
      RebuildAfterKeepsOff(s, f, pr.k, act.priority, p);
    }
  }

  lemma DeleteSorted(k: seq<Rule>, a: Rule)
    requires SortedByPriority(k)
    ensures SortedByPriority(DeleteRule(k, a))
  {
    WithoutSorted(k, FirstMatch(k, a));
  }

  lemma {:induction false} AllLaterKeepOff(s: Spec, f: Family, actual: seq<Rule>, plan: seq<Action>, pr: Progress, rest: seq<Action>, p: nat)
    requires NativeSpec(s, f) && SortedByPriority(pr.k) && AllRemovals(s, f, actual, rest) && (forall a :: a in rest ==> a.priority > p)
    requires !ExactRules(At(pr.k, p), RulesAt(s, f, p))
    ensures !ExactRules(At(CarryAll(s, f, actual, plan, pr, rest).k, p), RulesAt(s, f, p))
    decreases |rest|
  {
    hide ExactRules, RulesAt, SortedByPriority, At, Carry, RemovalOf;
    if |rest| > 0 {
      assert rest[0] in rest;
      LaterKeepsOff(s, f, actual, plan, pr, rest[0], p);
      AllLaterKeepOff(s, f, actual, plan, Carry(s, f, actual, plan, pr, rest[0]), rest[1..], p);
    }
  }

  // ---- the removals of a priority that is not rebuilt ----

  /** The removals carried out, those held up left out. */
  function RunFree(s: Spec, f: Family, actual: seq<Rule>, acts: seq<Action>, g: seq<Rule>): seq<Rule>
    decreases |acts|
  {
    if |acts| == 0 then g
    else RunFree(s, f, actual, acts[1..], if HeldUp(s, f, actual, acts[0].rule) then g else DeleteRule(g, acts[0].rule))
  }

  predicate AnyHeldUp(s: Spec, f: Family, actual: seq<Rule>, acts: seq<Action>) {
    exists a :: a in acts && HeldUp(s, f, actual, a.rule)
  }

  lemma {:induction false} RunFreeCount(s: Spec, f: Family, actual: seq<Rule>, acts: seq<Action>, g: seq<Rule>)
    ensures |RunFree(s, f, actual, acts, g)| >= |g| - |acts| + (if AnyHeldUp(s, f, actual, acts) then 1 else 0)
    decreases |acts|
  {
    hide HeldUp;
    if |acts| > 0 {
      var held := HeldUp(s, f, actual, acts[0].rule);
      DeleteCount(g, acts[0].rule);
      RunFreeCount(s, f, actual, acts[1..], if held then g else DeleteRule(g, acts[0].rule));
      if AnyHeldUp(s, f, actual, acts) && !held {
        var a :| a in acts && HeldUp(s, f, actual, a.rule);
        assert a in acts[1..];
      }
    }
  }

  lemma {:induction false} RunFreeAll(s: Spec, f: Family, actual: seq<Rule>, want: seq<Rule>, acts: seq<Action>, g: seq<Rule>)
    requires NoSub(acts) && !AnyHeldUp(s, f, actual, acts)
    ensures RunFree(s, f, actual, acts, g) == RunOne(want, acts, g)
    decreases |acts|
  {
    hide HeldUp;
    if |acts| > 0 {
      assert acts[0] in acts;
      forall a | a in acts[1..]
        ensures a in acts
      {
      }
      RunFreeAll(s, f, actual, want, acts[1..], DeleteRule(g, acts[0].rule));
    }
  }

  lemma {:induction false} RunFreeAbsent(s: Spec, f: Family, actual: seq<Rule>, acts: seq<Action>, g: seq<Rule>, m: Rule)
    requires Absent(g, m)
    ensures Absent(RunFree(s, f, actual, acts, g), m)
    decreases |acts|
  {
    hide HeldUp, Items;
    if |acts| > 0 {
      var g' := DeleteRule(g, acts[0].rule);
      DeleteCount(g, acts[0].rule);
      assert forall x :: x in g' ==> x in multiset(g') && x in multiset(g) && x in g;
      RunFreeAbsent(s, f, actual, acts[1..], if HeldUp(s, f, actual, acts[0].rule) then g else g', m);
    }
  }

  /** Every rule found stays or goes. */
  lemma {:induction false} StayOrGo(want: seq<Rule>, used: set<nat>, g: seq<Rule>)
    requires NoSub(Removals(want, used, false, g))
    ensures |Removals(want, used, false, g)| + |Kept(want, used, g)| == |g|
    decreases |g|
  {
    hide MatchIndex, DeleteMayTake;
    if |g| > 0 {
      var v := JudgeExpected(want, used, false, g[0]);
      var rest := Removals(want, v.used, v.subbed, g[1..]);
      assert Removals(want, used, false, g) == v.removals + rest;
      assert forall a :: a in v.removals ==> a in v.removals + rest;
      assert forall a :: a in rest ==> a in v.removals + rest;
      StayOrGo(want, v.used, g[1..]);
    }
  }

  /** A priority that is not ready does not end with its expected rules. */
  lemma UnreadyFails(s: Spec, f: Family, actual: seq<Rule>, p: nat)
    requires NativeSpec(s, f) && s.Owned(p) && !Ready(s, f, actual, p)
    ensures var want, g := RulesAt(s, f, p), At(actual, p);
            !IsRebuilt(s, f, actual, p) && !ExactRules(RunFree(s, f, actual, Removals(want, {}, false, g), Filled(s, f, actual, p)), want)
  {
    var want, g := RulesAt(s, f, p), At(actual, p);
    var acts, missing := Removals(want, {}, false, g), Missing(want, UsedBy(want, {}, g));
    ExpectedDistinct(s, f, p);
    hide RulesAt, HeldUp, At, Items;
    if !NoneThere(g, missing) {
      var m := RefusedAbsent(want, g, p);
      RunFreeAbsent(s, f, actual, acts, Filled(s, f, actual, p), m);
      LostIsNotExact(want, RunFree(s, f, actual, acts, Filled(s, f, actual, p)));
    } else if AnyHeldUp(s, f, actual, acts) {
      HeldIsTooMany(s, f, actual, p);
    } else {
      RunFreeAll(s, f, actual, want, acts, Filled(s, f, actual, p));
      EndsExactIff(want, g, p);
    }
  }

  lemma HeldIsTooMany(s: Spec, f: Family, actual: seq<Rule>, p: nat)
    requires NativeSpec(s, f) && !IsRebuilt(s, f, actual, p)
    requires var want, g := RulesAt(s, f, p), At(actual, p);
             NoneThere(g, Missing(want, UsedBy(want, {}, g))) && AnyHeldUp(s, f, actual, Removals(want, {}, false, g))
    ensures var want, g := RulesAt(s, f, p), At(actual, p);
            !ExactRules(RunFree(s, f, actual, Removals(want, {}, false, g), Filled(s, f, actual, p)), want)
  {
    var want, g := RulesAt(s, f, p), At(actual, p);
    var used := UsedBy(want, {}, g);
    var missing := Missing(want, used);
    ExpectedDistinct(s, f, p);
    hide RulesAt, HeldUp, At, Items, Removals, Kept;
    assert want[0..] == want;
    MissingDistinct(want, used, 0);
    AddAllNew(g, missing, p);
    StayOrGo(want, {}, g);
    KeptAndMissing(want, g);
    RunFreeCount(s, f, actual, Removals(want, {}, false, g), Filled(s, f, actual, p));
  }

  // ---- the round reaches it ----

  /** One removal carried out, once the guard has been read back. */
  lemma CarryOneHere(s: Spec, f: Family, actual: seq<Rule>, pr: Progress, act: Action, p: nat)
    requires NativeSpec(s, f) && SortedByPriority(actual) && SortedByPriority(pr.k) && BehindGuard(s, f, pr, p)
    requires act.kind.Del? && act.priority == p && RemovalOf(s, f, actual, act)
    requires RulesAt(s, f, p + 1) != [] ==> At(pr.k, p + 1) == Filled(s, f, actual, p + 1)
    ensures var next := Carry(s, f, actual, Diff(s, f, actual, false), pr, act);
            && SortedByPriority(next.k) && BehindGuard(s, f, next, p) && At(next.k, p + 1) == At(pr.k, p + 1)
            && At(next.k, p) == if HeldUp(s, f, actual, act.rule) then At(pr.k, p) else DeleteRule(At(pr.k, p), act.rule)
  {
    hide Diff, RulesAt, HeldUp, Waits, Filled, At, SortedByPriority, HasExact, DeleteRule, GuardRule, NativeSpec;
    WaitsIff(s, f, actual, pr.k, act.rule);
    DeleteRuleAt(pr.k, act.rule, p);
    DeleteRuleAt(pr.k, act.rule, p + 1);
    DeleteSorted(pr.k, act.rule);
  }

  /** Removals of one priority carried out, in order. */
  lemma {:induction false} CarryHere(s: Spec, f: Family, actual: seq<Rule>, pr: Progress, acts: seq<Action>, p: nat)
    requires NativeSpec(s, f) && SortedByPriority(actual) && SortedByPriority(pr.k) && BehindGuard(s, f, pr, p)
    requires ActsAt(acts, p) && NoSub(acts) && AllRemovals(s, f, actual, acts)
    requires RulesAt(s, f, p + 1) != [] ==> At(pr.k, p + 1) == Filled(s, f, actual, p + 1)
    ensures var end := CarryAll(s, f, actual, Diff(s, f, actual, false), pr, acts);
            SortedByPriority(end.k) && At(end.k, p) == RunFree(s, f, actual, acts, At(pr.k, p))
    decreases |acts|
  {
    hide Diff, RulesAt, HeldUp, Filled, At, SortedByPriority, Carry, BehindGuard, RemovalOf, NativeSpec, DeleteRule;
    if |acts| > 0 {
      assert acts[0] in acts && forall a :: a in acts[1..] ==> a in acts;
      CarryOneHere(s, f, actual, pr, acts[0], p);
      CarryHere(s, f, actual, Carry(s, f, actual, Diff(s, f, actual, false), pr, acts[0]), acts[1..], p);
    }
  }

  lemma {:induction false} SplitAt(acts: seq<Action>, p: nat) returns (low: seq<Action>, high: seq<Action>)
    requires SortedActions(acts)
    ensures acts == low + (ActionsAt(acts, p) + high)
    ensures ActsBelow(low, p) && forall a :: a in high ==> a.priority > p
    decreases |acts|
  {
    hide ActionsAt;
    if acts == [] || acts[0].priority >= p {
      forall a | a in acts
        ensures a.priority >= p
      {
        var i :| 0 <= i < |acts| && acts[i] == a;
      }
      low := [];
      high := SplitHere(acts, p);
      NothingFirst([], ActionsAt(acts, p) + high);
    } else {
      low, high := SplitAt(acts[1..], p);
      ActionsStep(acts, p);
      ConcatAssoc([acts[0]], low, ActionsAt(acts, p) + high);
      low := [acts[0]] + low;
    }
  }

  lemma {:induction false} SplitHere(acts: seq<Action>, p: nat) returns (high: seq<Action>)
    requires SortedActions(acts) && forall a :: a in acts ==> a.priority >= p
    ensures acts == ActionsAt(acts, p) + high && forall a :: a in high ==> a.priority > p
    decreases |acts|
  {
    hide ActionsAt, SortedActions;
    if acts != [] && acts[0].priority == p {
      assert acts == [acts[0]] + acts[1..];
      SortedTail([acts[0]], acts[1..]);
      high := SplitHere(acts[1..], p);
      ActionsStep(acts, p);
      ConcatAssoc([acts[0]], ActionsAt(acts[1..], p), high);
    } else {
      assert acts == [] || acts[0] in acts;
      NoneEarlier(acts, p);
      high := acts;
      AllAfter(acts, p);
    }
  }

  lemma AllAfter(acts: seq<Action>, p: nat)
    requires SortedActions(acts) && (acts == [] || acts[0].priority > p)
    ensures forall a :: a in acts ==> a.priority > p
  {
    forall a | a in acts
      ensures a.priority > p
    {
      var i :| 0 <= i < |acts| && acts[i] == a;
    }
  }

  lemma GuardBefore(s: Spec, f: Family, actual: seq<Rule>, pr: Progress, cur: nat, rest: seq<Action>, p: nat)
    requires NativeSpec(s, f) && ReadyBelow(s, f, actual, p) && AllOnTrack(s, f, actual, pr, cur, rest)
    requires SortedActions(rest) && forall a :: a in rest ==> a.priority >= p
    ensures BehindGuard(s, f, pr, p)
  {
    if s.tempGuard.At(f) && InGuardRange(p) {
      assert rest == [] || rest[0] in rest;
      DoneExact(s, f, actual, p, pr, cur, rest, TEMP_GUARD);
      GuardIsExpected(s, f);
      ExactAt(pr.k, GuardRule(s, f));
    }
  }

  lemma ScanInOrder(s: Spec, f: Family, actual: seq<Rule>)
    requires NativeSpec(s, f) && SortedByPriority(actual)
    ensures var acts := Scan(s, f, actual, START, actual).removals; AllRemovals(s, f, actual, acts) && SortedActions(acts)
  {
    hide Scan, RulesAt, SortedByPriority, AllRemovals;
    StartSorted(actual);
    StartHasNone(s, f, actual);
    ScanRemovals(s, f, actual, START, actual, 0);
  }

  /** The rules when the round comes to a priority: nothing there or at the next one is removed yet. */
  lemma Arrive(s: Spec, f: Family, actual: seq<Rule>, p: nat, low: seq<Action>, more: seq<Action>) returns (pr: Progress)
    requires NativeSpec(s, f) && SortedByPriority(actual) && AllFit(s, f, actual) && s.Owned(p) && ReadyBelow(s, f, actual, p)
    requires Scan(s, f, actual, START, actual).removals == low + more
    requires ActsBelow(low, p) && forall a :: a in more ==> a.priority >= p
    ensures SortedByPriority(pr.k) && BehindGuard(s, f, pr, p) && At(pr.k, p) == Filled(s, f, actual, p)
    ensures RulesAt(s, f, p + 1) != [] ==> At(pr.k, p + 1) == Filled(s, f, actual, p + 1)
    ensures Round(s, f, actual) == CarryAll(s, f, actual, Diff(s, f, actual, false), pr, more).k
  {
    hide Scan, Additions, Diff, Round, CarryAll, AddAll, RulesIn, AddOrder, RulesAt, At, Ready, FromScan, Fits, Filled, SortedByPriority;
    var st := Scan(s, f, actual, START, actual);
    var adds := Additions(s, f, st, false, AddOrder(s.config));
    RoundSplits(s, f, actual);
    StartsOnTrack(s, f, actual);
    ScanInOrder(s, f, actual);
    var mid := Progress(AddAll(actual, RulesIn(adds)), {}, false);
    var last := CarryRemovals(s, f, actual, p, mid, 0, low, more);
    pr := CarryAll(s, f, actual, Diff(s, f, actual, false), mid, low);
    CarryConcat(s, f, actual, Diff(s, f, actual, false), mid, low, more);
    SortedTail(low, more);
    GuardBefore(s, f, actual, pr, last, more, p);
    NotYet(s, f, actual, pr, last, more, p + 1);
    if p > 0 {
      NotYet(s, f, actual, pr, last, more, p);
    } else {
      NoneBelow(s, f, actual, Diff(s, f, actual, false), mid, low);
    }
  }

  lemma SortedTail(low: seq<Action>, more: seq<Action>)
    requires SortedActions(low + more)
    ensures SortedActions(more)
  {
    forall i, j | 0 <= i < j < |more|
      ensures more[i].priority <= more[j].priority
    {
      assert (low + more)[|low| + i] == more[i] && (low + more)[|low| + j] == more[j];
    }
  }

  lemma NoneBelow(s: Spec, f: Family, actual: seq<Rule>, plan: seq<Action>, pr: Progress, low: seq<Action>)
    requires ActsBelow(low, 0)
    ensures CarryAll(s, f, actual, plan, pr, low) == pr
  {
    if |low| > 0 {
      assert low[0] in low;
    }
  }

  lemma NotYet(s: Spec, f: Family, actual: seq<Rule>, pr: Progress, cur: nat, rest: seq<Action>, p: nat)
    requires NativeSpec(s, f) && AllOnTrack(s, f, actual, pr, cur, rest) && p > cur
    ensures s.Owned(p) || RulesAt(s, f, p) != [] ==> At(pr.k, p) == Filled(s, f, actual, p)
  {
    assert OnTrack(s, f, actual, pr.k, pr.rebuilt, cur, rest, p);
    if RulesAt(s, f, p) != [] {
      OrderIsComplete(s, f, p);
    }
  }

  lemma ScanHere(s: Spec, f: Family, actual: seq<Rule>, p: nat)
    requires NativeSpec(s, f) && s.Owned(p)
    ensures ActionsAt(Scan(s, f, actual, START, actual).removals, p) == Removals(RulesAt(s, f, p), {}, false, At(actual, p))
  {
    hide Scan, RulesAt, At, Removals, UsedBy;
    ScanAt(s, f, actual, START, actual, RulesAt(s, f, p), p);
  }

  /** The removals of one priority in the round, between the ones before and the ones after. */
  lemma RemovalsSplit(s: Spec, f: Family, actual: seq<Rule>, p: nat) returns (low: seq<Action>, high: seq<Action>)
    requires NativeSpec(s, f) && SortedByPriority(actual) && s.Owned(p)
    ensures var here := Removals(RulesAt(s, f, p), {}, false, At(actual, p));
            && Scan(s, f, actual, START, actual).removals == low + (here + high)
            && AllRemovals(s, f, actual, here) && AllRemovals(s, f, actual, high) && ActsAt(here, p)
    ensures ActsBelow(low, p) && forall a :: a in high ==> a.priority > p
  {
    hide Scan, RulesAt, At, SortedByPriority, Removals, AllRemovals, NativeSpec, SortedActions, ActionsAt;
    var acts := Scan(s, f, actual, START, actual).removals;
    ScanInOrder(s, f, actual);
    ScanHere(s, f, actual, p);
    low, high := SplitAt(acts, p);
    SomeRemovals(s, f, actual, acts, ActionsAt(acts, p), high);
  }

  /** The lowest priority that is not ready fails, whatever comes after it. */
  lemma LowestFails(s: Spec, f: Family, actual: seq<Rule>, p: nat)
    requires NativeSpec(s, f) && SortedByPriority(actual) && AllFit(s, f, actual)
    requires s.Owned(p) && !Ready(s, f, actual, p) && ReadyBelow(s, f, actual, p)
    ensures !ExactRules(At(Round(s, f, actual), p), RulesAt(s, f, p))
  {
    hide Scan, Diff, Round, RulesAt, At, Ready, Filled, SortedByPriority, Removals, HeldUp, RemovalOf, ExactRules, Carry, CarryAll, RunFree, BehindGuard, AllFit, ReadyBelow, AllRemovals;
    var plan := Diff(s, f, actual, false);
    var low, high := RemovalsSplit(s, f, actual, p);
    var here := Removals(RulesAt(s, f, p), {}, false, At(actual, p));
    var pr := Arrive(s, f, actual, p, low, here + high);
    UnreadyFails(s, f, actual, p);
    CarryHere(s, f, actual, pr, here, p);
    CarryConcat(s, f, actual, plan, pr, here, high);
    AllLaterKeepOff(s, f, actual, plan, CarryAll(s, f, actual, plan, pr, here), high, p);
  }

  lemma SomeRemovals(s: Spec, f: Family, actual: seq<Rule>, acts: seq<Action>, a: seq<Action>, b: seq<Action>)
    requires AllRemovals(s, f, actual, acts) && (forall x :: x in a || x in b ==> x in acts)
    ensures AllRemovals(s, f, actual, a) && AllRemovals(s, f, actual, b)
  {
  }

  lemma {:induction false} Lowest(s: Spec, f: Family, actual: seq<Rule>, p: nat) returns (q: nat)
    requires s.Owned(p) && !Ready(s, f, actual, p)
    ensures s.Owned(q) && !Ready(s, f, actual, q) && ReadyBelow(s, f, actual, q)
    decreases p
  {
    hide Ready;
    if ReadyBelow(s, f, actual, p) {
      q := p;
    } else {
      var r: nat :| s.Owned(r) && r < p && !Ready(s, f, actual, r);
      q := Lowest(s, f, actual, r);
    }
  }

  /** Where no rebuilt priority holds more rules than a rebuild clears: one round ends with exactly
      the expected rules at every owned priority if and only if every one of them is ready. */
  lemma RoundExactIff(s: Spec, f: Family, actual: seq<Rule>)
    requires NativeSpec(s, f) && SortedByPriority(actual) && AllFit(s, f, actual)
    ensures (forall p :: s.Owned(p) ==> ExactRules(At(Round(s, f, actual), p), RulesAt(s, f, p))) <==> AllReady(s, f, actual)
  {
    hide Round, RulesAt, At, Ready, ExactRules, SortedByPriority, NativeSpec, AllFit;
    if AllReady(s, f, actual) {
      forall p | s.Owned(p)
        ensures ExactRules(At(Round(s, f, actual), p), RulesAt(s, f, p))
      {
        RoundConverges(s, f, actual, p);
      }
    } else {
      var p: nat :| s.Owned(p) && !Ready(s, f, actual, p);
      var q := Lowest(s, f, actual, p);
      LowestFails(s, f, actual, q);
    }
  }

  // ---- a removal that is held up ----

  function Inverted(e: Rule): Rule {
    e.(invert := !e.invert)
  }

  /** A copy left one priority before an expected rule, and in that rule's place its inverse. */
  function TwinRules(e: Rule): seq<Rule>
    requires e.priority > 0
  {
    [CopyOf(e), Inverted(e)]
  }

  lemma TwinPlaces(e: Rule, p: nat)
    requires e.priority > 0
    ensures SortedByPriority(TwinRules(e))
    ensures At(TwinRules(e), p) == if p == e.priority - 1 then [CopyOf(e)] else if p == e.priority then [Inverted(e)] else []
  {
    var rs := TwinRules(e);
    assert rs[1..] == [Inverted(e)] && [Inverted(e)][1..] == [];
    assert At([Inverted(e)], p) == if p == e.priority then [Inverted(e)] + At([], p) else At([], p);
    assert At(rs, p) == if p == e.priority - 1 then [CopyOf(e)] + At(rs[1..], p) else At(rs[1..], p);
  }

  lemma OneJudged(want: seq<Rule>, x: Rule)
    requires !IsExpected(x, want)
    ensures UsedBy(want, {}, [x]) == {} && |Removals(want, {}, false, [x])| == 1
    ensures Removals(want, {}, false, [x])[0] == Action(if |want| > 0 && DeleteMayTake(x, want) then Sub else Del, x.priority, x)
  {
    hide Items, DeleteMayTake;
    assert [x][1..] == [];
    assert MatchIndex(want, {}, x) == |want|;
    var v := JudgeExpected(want, {}, false, x);
    assert v.used == {} && UsedBy(want, v.used, [x][1..]) == {};
    assert Removals(want, {}, false, [x]) == v.removals + Removals(want, v.used, v.subbed, [x][1..]);
    assert v.removals + [] == v.removals;
  }

  /** The inverse stands in the way of the expected rule, which is missing but cannot be added. */
  lemma InverseInTheWay(want: seq<Rule>, e: Rule)
    requires DistinctIdentities(want) && AllStandard(want) && AllAt(want, e.priority) && e in want
    ensures var x := Inverted(e); !IsExpected(x, want) && DeleteMayTake(x, want) && Duplicate([x], e) && Absent([x], e)
  {
    var x := Inverted(e);
    assert Identity(x) == Identity(e) && Items(x) != Items(e);
    assert x in [x];
    PlainTwinTakes(x, e);
    if IsExpected(x, want) {
      var i :| 0 <= i < |want| && Items(x) == Items(want[i]);
      var j :| 0 <= j < |want| && want[j] == e;
      assert want[i] in want;
      SameIdentityIndex(want, i, j);
    }
  }

  lemma {:induction false} AllMissing(want: seq<Rule>, from: nat, e: Rule)
    requires from <= |want| && e in want[from..]
    ensures e in Missing(want, {}, from)
    decreases |want| - from
  {
    if want[from] != e {
      AllMissing(want, from + 1, e);
    }
  }

  lemma UnlikeCopy(r: Rule, e: Rule)
    requires Standard(r) && Standard(e) && Unlike(e, r) && e.priority > 0
    ensures !SubsetOf(Items(CopyOf(e)), Items(r)) && Items(CopyOf(e)) != Items(r)
  {
  }

  lemma CopyTakesNot(s: Spec, f: Family, e: Rule, r: Rule)
    requires NativeSpec(s, f) && e.priority > 0 && e in RulesAt(s, f, e.priority) && r in RulesAt(s, f, e.priority - 1)
    ensures !SubsetOf(Items(CopyOf(e)), Items(r)) && !DeleteMatches(CopyOf(e), r) && Items(CopyOf(e)) != Items(r)
  {
    hide RulesAt, Items, SubsetOf, DeleteMatches, Standard, Unlike, RuleOf, SlotOf, PriorityOf;
    var sw := ExpectedSlot(s, f, e.priority, e);
    var sr := ExpectedSlot(s, f, e.priority - 1, r);
    StandardAndUnlike(s.config, f, sr, sw);
    CopyIsApart(s.config, f, sr, sw, r);
    UnlikeCopy(r, e);
  }

  lemma CopyTakesNone(s: Spec, f: Family, e: Rule)
    requires NativeSpec(s, f) && e.priority > 0 && e in RulesAt(s, f, e.priority)
    ensures var want := RulesAt(s, f, e.priority - 1); !DeleteMayTake(CopyOf(e), want) && !IsExpected(CopyOf(e), want)
  {
    hide RulesAt, Items, SubsetOf, DeleteMatches, NativeSpec;
    forall r | r in RulesAt(s, f, e.priority - 1)
      ensures !SubsetOf(Items(CopyOf(e)), Items(r)) && !DeleteMatches(CopyOf(e), r) && Items(CopyOf(e)) != Items(r)
    {
      CopyTakesNot(s, f, e, r);
    }
  }

  lemma TwinRefused(want: seq<Rule>, e: Rule)
    requires DistinctIdentities(want) && AllStandard(want) && AllAt(want, e.priority) && e in want
    ensures var x := Inverted(e);
            && !NoSub(Removals(want, {}, false, [x])) && UsedBy(want, {}, [x]) == {}
            && e in Missing(want, {}) && !HasExact(AddAll([x], Missing(want, {})), e)
  {
    hide Items, Removals, UsedBy, DeleteMayTake, IsExpected, Identity, Missing, AddAll;
    var x := Inverted(e);
    InverseInTheWay(want, e);
    OneJudged(want, x);
    assert want[0..] == want;
    AllMissing(want, 0, e);
    MissingAreWanted(want, {});
    RefusedStays([x], Missing(want, {}), e);
  }

  lemma TwinHeldUp(s: Spec, f: Family, e: Rule)
    requires NativeSpec(s, f) && e.priority > 0 && e in RulesAt(s, f, e.priority)
    ensures IsRebuilt(s, f, TwinRules(e), e.priority) && HeldUp(s, f, TwinRules(e), CopyOf(e))
  {
    hide RulesAt, At, Items, Removals, UsedBy, HasExact, Dependents, Missing, AddAll;
    ExpectedDistinct(s, f, e.priority);
    TwinRefused(RulesAt(s, f, e.priority), e);
    TwinPlaces(e, e.priority);
    DependsOn(s, f, TwinRules(e), e);
    assert CopyOf(e).priority + 1 == e.priority;
    assert e in MissingAt(s, f, TwinRules(e), e.priority) && Items(e) == Items(e);
    assert !HasExact(Filled(s, f, TwinRules(e), e.priority), e);
  }

  lemma CopyItems(e: Rule)
    requires e.priority > 0
    ensures Items(CopyOf(e)) == Items(e)
  {
  }

  lemma DependsOn(s: Spec, f: Family, actual: seq<Rule>, e: Rule)
    requires NativeSpec(s, f) && e.priority > 0 && e in RulesAt(s, f, e.priority)
    ensures e in Dependents(s, f, actual, CopyOf(e))
  {
    hide RulesAt, GoesBack, Items;
    CopyItems(e);
    GoesBackExpected(s, f, actual, e.priority);
  }

  /** An expected rule's copy left behind, with the rule's inverse in its place: the inverse is
      rebuilt away, but the copy outlives the round. */
  lemma TwinOutlives(s: Spec, f: Family, e: Rule)
    requires NativeSpec(s, f) && e.priority > 0 && e in RulesAt(s, f, e.priority) && s.Owned(e.priority - 1)
    ensures var p := e.priority - 1;
            && Ready(s, f, TwinRules(e), e.priority) && !Ready(s, f, TwinRules(e), p)
            && (AllFit(s, f, TwinRules(e)) ==> !ExactRules(At(Round(s, f, TwinRules(e)), p), RulesAt(s, f, p)))
  {
    hide RulesAt, At, Items, Removals, UsedBy, DeleteMayTake, IsExpected, HeldUp, AllFit, Round, ExactRules, SortedByPriority;
    var p, actual := e.priority - 1, TwinRules(e);
    TwinHeldUp(s, f, e);
    CopyTakesNone(s, f, e);
    TwinPlaces(e, p);
    OneJudged(RulesAt(s, f, p), CopyOf(e));
    assert Removals(RulesAt(s, f, p), {}, false, At(actual, p))[0].rule == CopyOf(e);
    forall r: nat | s.Owned(r) && r < p
      ensures Ready(s, f, actual, r)
    {
      TwinPlaces(e, r);
      EmptyIsReady(s, f, actual, r);
    }
    if AllFit(s, f, actual) {
      LowestFails(s, f, actual, p);
    }
  }

  lemma EmptyIsReady(s: Spec, f: Family, actual: seq<Rule>, p: nat)
    requires At(actual, p) == []
    ensures Ready(s, f, actual, p)
  {
    hide RulesAt, At, Items, HeldUp;
  }
}
