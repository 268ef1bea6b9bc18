/**
Two judges of a family's rules: the comparison that plans repairs and the status that says
whether the contract holds. On a native overlay they agree.
*/
module Judges {
  import opened Rtnl
  import opened Contract
  import opened Comparison
  import opened OnePriority
  import opened Identities
  import opened Converge

  // ---- rules that are exactly the expected ones ----

  predicate NoRepeat(k: seq<Rule>) {
    |k| > 0 ==> !HasExact(k[1..], k[0]) && NoRepeat(k[1..])
  }

  /** Each expected rule is there exactly once, and nothing else is. */
  predicate Holds(k: seq<Rule>, want: seq<Rule>) {
    && NoRepeat(k)
    && (forall x :: x in k ==> HasExact(want, x))
    && (forall e :: e in want ==> HasExact(k, e))
  }

  // ---- one priority of the comparison ----

  lemma {:induction false} CleanNoRepeat(want: seq<Rule>, used: set<nat>, g: seq<Rule>, p: nat)
    requires DistinctIdentities(want) && AllAt(want, p) && AllAt(g, p) && Removals(want, used, false, g) == []
    ensures NoRepeat(g) && forall x :: x in g ==> HasExact(want, x)
    decreases |g|
  {
    if |g| > 0 {
      ScanStep(want, used, false, g);
      var m := MatchIndex(want, used, g[0]);
      assert m < |want|;
      assert want[m] in want && g[0] in g;
      KeepStep(want, used, g);
      CleanNoRepeat(want, used + {m}, g[1..], p);
      forall y | y in g[1..]
        ensures Items(y) != Items(g[0])
      {
        if Items(y) == Items(g[0]) {
          FoundWasFree(want, used + {m}, g[1..], y, m, p);
        }
      }
    }
  }

  lemma MissingNoneUsed(want: seq<Rule>, used: set<nat>)
    requires forall i :: i in used ==> i < |want|
    ensures Missing(want, used) == [] <==> forall i :: 0 <= i < |want| ==> i in used
  {
    MissingFillsRest(want, used);
    MissingCount(want, used, 0);
    if Missing(want, used) != [] {
      var m := Missing(want, used)[0];
      assert m in Missing(want, used);
    }
  }

  /** No place of a rule still to be looked at has been taken. */
  predicate PlacesFree(want: seq<Rule>, used: set<nat>, g: seq<Rule>) {
    forall i :: i in used && i < |want| ==> Absent(g, want[i])
  }

  lemma {:induction false} HoldsIsClean(want: seq<Rule>, used: set<nat>, g: seq<Rule>, p: nat)
    requires DistinctIdentities(want) && AllAt(want, p) && AllAt(g, p)
    requires NoRepeat(g) && (forall x :: x in g ==> HasExact(want, x)) && PlacesFree(want, used, g)
    ensures Removals(want, used, false, g) == []
    decreases |g|
  {
    hide Items, DistinctIdentities;
    if |g| > 0 {
      assert g[0] in g;
      var e :| e in want && Items(e) == Items(g[0]);
      var i :| 0 <= i < |want| && want[i] == e;
      assert i !in used;
      var m := MatchIndex(want, used, g[0]);
      KeepStep(want, used, g);
      forall j | j in used + {m} && j < |want|
        ensures Absent(g[1..], want[j])
      {
        if j == m {
          forall y | y in g[1..]
            ensures Items(y) != Items(want[m])
          {
            assert y in g;
          }
        }
      }
      HoldsIsClean(want, used + {m}, g[1..], p);
    }
  }

  lemma HoldsAsksNothing(want: seq<Rule>, g: seq<Rule>, p: nat)
    requires DistinctIdentities(want) && AllAt(want, p) && AllAt(g, p) && Holds(g, want)
    ensures Removals(want, {}, false, g) == [] && Missing(want, UsedBy(want, {}, g)) == []
  {
    hide Items, Removals, Missing, UsedBy, DistinctIdentities;
    KeptCount(want, {}, g);
    MissingNoneUsed(want, UsedBy(want, {}, g));
    HoldsIsClean(want, {}, g, p);
    forall i | 0 <= i < |want|
      ensures i in UsedBy(want, {}, g)
    {
      assert want[i] in want;
      var x :| x in g && Items(x) == Items(want[i]);
      FoundIsUsed(want, {}, g, x, i, p);
    }
  }

  lemma AsksNothingHolds(want: seq<Rule>, g: seq<Rule>, p: nat)
    requires DistinctIdentities(want) && AllAt(want, p) && AllAt(g, p)
    requires Removals(want, {}, false, g) == [] && Missing(want, UsedBy(want, {}, g)) == []
    ensures Holds(g, want)
  {
    KeptCount(want, {}, g);
    MissingNoneUsed(want, UsedBy(want, {}, g));
    CleanNoRepeat(want, {}, g, p);
    forall e | e in want
      ensures HasExact(g, e)
    {
      var i :| 0 <= i < |want| && want[i] == e;
      var x :| x in Kept(want, {}, g) && Items(x) == Items(want[i]);
      KeptAreExpected(want, {}, g, x);
    }
  }

  /** A priority asks for nothing if and only if it holds exactly its expected rules. */
  lemma CleanIff(want: seq<Rule>, g: seq<Rule>, p: nat)
    requires DistinctIdentities(want) && AllAt(want, p) && AllAt(g, p)
    ensures Removals(want, {}, false, g) == [] && Missing(want, UsedBy(want, {}, g)) == [] <==> Holds(g, want)
  {
    if Holds(g, want) {
      HoldsAsksNothing(want, g, p);
    }
    if Removals(want, {}, false, g) == [] && Missing(want, UsedBy(want, {}, g)) == [] {
      AsksNothingHolds(want, g, p);
    }
  }

  // ---- the whole comparison ----

  /** An empty plan means every priority that is compared holds exactly its expected rules. */
  lemma EmptyPlanHolds(s: Spec, f: Family, rules: seq<Rule>, p: nat)
    requires s.config.Valid() && Distinct(s.returnPath.At(f)) && Diff(s, f, rules, false) == []
    requires s.Owned(p) && !s.Skipped(f, p)
    ensures Holds(At(rules, p), RulesAt(s, f, p))
  {
    var st := Scan(s, f, rules, START, rules);
    var want := RulesAt(s, f, p);
    assert st.removals == [] && Additions(s, f, st, false, AddOrder(s.config)) == [];
    ExpectedDistinct(s, f, p);
    ScanAt(s, f, rules, START, rules, want, p);
    OrderDistinct(s.config);
    AdditionsProject(s, f, st, AddOrder(s.config), p);
    assert Removals(want, {}, false, At(rules, p)) == [];
    if want != [] {
      OrderIsComplete(s, f, p);
    } else {
      MissingNone(UsedBy(want, {}, At(rules, p)));
    }
    AsksNothingHolds(want, At(rules, p), p);
  }

  lemma {:induction false} ScanOwned(s: Spec, f: Family, all: seq<Rule>, st: DiffState, rest: seq<Rule>)
    requires NativeSpec(s, f) && (forall x :: x in rest ==> x in all) && AllRemovals(s, f, all, st.removals)
    ensures AllRemovals(s, f, all, Scan(s, f, all, st, rest).removals)
    decreases |rest|
  {
    if |rest| > 0 {
      var a := rest[0];
      assert a in rest;
      JudgeAdds(s, f, all, st.UsedAt(a.priority), a.priority in st.subbed, a);
      ScanOwned(s, f, all, Judge(s, f, all, st, a), rest[1..]);
    }
  }

  lemma {:induction false} NoAdditions(s: Spec, f: Family, st: DiffState, order: seq<nat>)
    requires forall p :: p in order ==> Missing(RulesAt(s, f, p), st.UsedAt(p)) == []
    ensures Additions(s, f, st, false, order) == []
  {
    if |order| > 0 {
      assert order[0] in order;
      NoAdditions(s, f, st, order[1..]);
    }
  }

  /** Natively the plan is empty if and only if every owned priority holds its expected rules. */
  lemma EmptyPlanIff(s: Spec, f: Family, rules: seq<Rule>)
    requires NativeSpec(s, f)
    ensures Diff(s, f, rules, false) == [] <==> forall p :: s.Owned(p) ==> Holds(At(rules, p), RulesAt(s, f, p))
  {
    if Diff(s, f, rules, false) == [] {
      forall p | s.Owned(p)
        ensures Holds(At(rules, p), RulesAt(s, f, p))
      {
        EmptyPlanHolds(s, f, rules, p);
      }
    }
    if forall p :: s.Owned(p) ==> Holds(At(rules, p), RulesAt(s, f, p)) {
      HoldingPlansNothing(s, f, rules);
    }
  }

  lemma HoldingPlansNothing(s: Spec, f: Family, rules: seq<Rule>)
    requires NativeSpec(s, f) && forall p :: s.Owned(p) ==> Holds(At(rules, p), RulesAt(s, f, p))
    ensures Diff(s, f, rules, false) == []
  {
    var st := Scan(s, f, rules, START, rules);
    ScanOwned(s, f, rules, START, rules);
    forall p | s.Owned(p)
      ensures ActionsAt(st.removals, p) == [] && Missing(RulesAt(s, f, p), st.UsedAt(p)) == []
    {
      HoldingAsksNothing(s, f, rules, p);
    }
    if st.removals != [] {
      var a := st.removals[0];
      assert a in st.removals;
      ActionsStep(st.removals, a.priority);
    }
    forall p | p in AddOrder(s.config)
      ensures Missing(RulesAt(s, f, p), st.UsedAt(p)) == []
    {
      if RulesAt(s, f, p) != [] {
        OrderIsComplete(s, f, p);
      } else {
        MissingNone(st.UsedAt(p));
      }
    }
    NoAdditions(s, f, st, AddOrder(s.config));
    PlanIs(s, f, rules);
  }

  lemma HoldingAsksNothing(s: Spec, f: Family, rules: seq<Rule>, p: nat)
    requires NativeSpec(s, f) && s.Owned(p) && Holds(At(rules, p), RulesAt(s, f, p))
    ensures var st := Scan(s, f, rules, START, rules);
            ActionsAt(st.removals, p) == [] && Missing(RulesAt(s, f, p), st.UsedAt(p)) == []
  {
    ExpectedDistinct(s, f, p);
    ScanAt(s, f, rules, START, rules, RulesAt(s, f, p), p);
    HoldsAsksNothing(RulesAt(s, f, p), At(rules, p), p);
  }

  // ---- the status ----

  /** Inverted, the overlay interface the only selector. */
  predicate GuardShape(r: Rule, overlayIf: string) {
    && r.iif == overlayIf && r.src.None? && r.dst.None? && r.oif == "" && r.tos == 0
    && r.fwMark.None? && r.fwMask.None? && r.ipProto.None? && r.suppressPrefixLen.None? && r.suppressIfGroup.None?
    && r.jump.None? && r.l3mdev.None? && r.unknown == [] && r.extraFlags == 0 && !r.bad
  }

  /** The rule looks the local table up and could match a packet arriving on the overlay. */
  predicate AdmitsOverlay(r: Rule, overlayIf: string) {
    && r.action == ACT_TO_TABLE && r.table == TABLE_LOCAL
    && if r.invert then !GuardShape(r, overlayIf) else r.iif == "" || r.iif == overlayIf
  }

  predicate Detached(r: Rule) {
    r.iifDetached || r.oifDetached
  }

  predicate ExactRule(r: Rule, want: Rule) {
    !Detached(r) && Items(r) == Items(want)
  }

  /** The first expected rule not found yet that r is exactly, or the length. */
  function StatusIndex(expected: seq<Rule>, found: set<nat>, r: Rule, from: nat := 0): (i: nat)
    requires from <= |expected|
    ensures from <= i <= |expected|
    ensures i < |expected| ==> i !in found && r.priority == expected[i].priority && ExactRule(r, expected[i])
    ensures i == |expected| ==>
              forall j :: from <= j < |expected| && j !in found ==> !(r.priority == expected[j].priority && ExactRule(r, expected[j]))
    decreases |expected| - from
  {
    if from == |expected| then from
    else if from !in found && r.priority == expected[from].priority && ExactRule(r, expected[from]) then from
    else StatusIndex(expected, found, r, from + 1)
  }

  /** Every owned rule is matched with an expected one of its own, and none is left. */
  predicate StatusMatches(s: Spec, expected: seq<Rule>, found: set<nat>, rules: seq<Rule>)
    decreases |rules|
  {
    if |rules| == 0 then forall i :: 0 <= i < |expected| ==> i in found
    else if !s.Owned(rules[0].priority) then StatusMatches(s, expected, found, rules[1..])
    else
      var i := StatusIndex(expected, found, rules[0]);
      i < |expected| && StatusMatches(s, expected, found + {i}, rules[1..])
  }

  /** The contract a family's status is judged by: the tunnel address's pair, nothing left out. */
  function StatusSpec(s: Spec, f: Family, address: Opt<Addr>): Spec {
    s.(returnPath := Pair([], []).With(f, if address.Some? then [address.v] else []),
       leave := Pair(false, false), tempGuard := Pair(false, false))
  }

  /** The rule half of a family's status. */
  predicate StatusRules(s: Spec, f: Family, rules: seq<Rule>, address: Opt<Addr>) {
    && (address.Some? ==> address.v.family == f)
    && (s.config.IsNativeSidecar() || forall r :: r in rules ==> !AdmitsOverlay(r, s.config.overlayIf))
    && StatusMatches(s, Rules(StatusSpec(s, f, address), f), {}, rules)
  }

  /** The status as the code runs it: a flag per expected rule, one pass over the rules. */
  method RunStatus(s: Spec, f: Family, rules: seq<Rule>, address: Opt<Addr>) returns (ok: bool)
    ensures ok <==> StatusRules(s, f, rules, address)
  {
    hide Rules, AdmitsOverlay, Items;
    if address.Some? && address.v.family != f {
      return false;
    }
    var expected := Rules(StatusSpec(s, f, address), f);
    var found: set<nat> := {};
    ok := true;
    for i := 0 to |rules|
      invariant ok ==> (StatusMatches(s, expected, {}, rules) <==> StatusMatches(s, expected, found, rules[i..]))
      invariant ok ==> (s.config.IsNativeSidecar() || forall r :: r in rules[..i] ==> !AdmitsOverlay(r, s.config.overlayIf))
      invariant !ok ==> !StatusRules(s, f, rules, address)
    {
      var r := rules[i];
      assert rules[i..][0] == r && rules[i..][1..] == rules[i + 1..];
      assert rules[..i + 1] == rules[..i] + [r] && r in rules;
      if !s.config.IsNativeSidecar() && AdmitsOverlay(r, s.config.overlayIf) {
        ok := false;
      }
      if s.Owned(r.priority) {
        var j := StatusIndex(expected, found, r);
        if j < |expected| {
          found := found + {j};
        } else {
          ok := false;
        }
      }
    }
    assert rules[|rules|..] == [] && rules[..|rules|] == rules;
    if exists i :: 0 <= i < |expected| && i !in found {
      ok := false;
    }
  }

  // ---- the status, priority by priority ----

  /** The priority is the contract's and its rules are compared. */
  predicate Judged(s: Spec, f: Family, p: nat) {
    s.Owned(p) && !s.Skipped(f, p)
  }

  /** The rules at priorities that are compared. */
  function OwnedOf(s: Spec, f: Family, rules: seq<Rule>): seq<Rule> {
    if |rules| == 0 then []
    else (if Judged(s, f, rules[0].priority) then [rules[0]] else []) + OwnedOf(s, f, rules[1..])
  }

  lemma {:induction false} OwnedAt(s: Spec, f: Family, rules: seq<Rule>, p: nat)
    ensures At(OwnedOf(s, f, rules), p) == if Judged(s, f, p) then At(rules, p) else []
    ensures forall x :: x in OwnedOf(s, f, rules) <==> x in rules && Judged(s, f, x.priority)
  {
    if |rules| > 0 {
      OwnedAt(s, f, rules[1..], p);
      AtConcat(if Judged(s, f, rules[0].priority) then [rules[0]] else [], OwnedOf(s, f, rules[1..]), p);
    }
  }

  lemma SameKey(k: seq<Rule>, i: nat, j: nat)
    requires NoRepeat(k) && i < |k| && j < |k| && k[i].priority == k[j].priority && Items(k[i]) == Items(k[j])
    ensures i == j
  {
    if i < j {
      NoRepeatPair(k, i, j);
    } else if j < i {
      NoRepeatPair(k, j, i);
    }
  }

  lemma {:induction false} NoRepeatPair(k: seq<Rule>, i: nat, j: nat)
    requires NoRepeat(k) && i < j < |k|
    ensures !(k[i].priority == k[j].priority && Items(k[i]) == Items(k[j]))
  {
    if i == 0 {
      assert k[j] in k[1..];
    } else {
      NoRepeatPair(k[1..], i - 1, j - 1);
    }
  }

  predicate NoneDetached(k: seq<Rule>) {
    forall x :: x in k ==> !Detached(x)
  }

  /** The expected rules found are exactly those the rules still to come do not have. */
  predicate Accounted(expected: seq<Rule>, found: set<nat>, k: seq<Rule>) {
    forall i :: 0 <= i < |expected| ==> (i in found <==> !HasExact(k, expected[i]))
  }

  predicate StatusHolds(expected: seq<Rule>, found: set<nat>, k: seq<Rule>) {
    NoRepeat(k) && NoneDetached(k) && (forall x :: x in k ==> HasExact(expected, x)) && Accounted(expected, found, k)
  }

  lemma ExactCons(x: Rule, k: seq<Rule>, e: Rule)
    ensures HasExact([x] + k, e) <==> HasExact(k, e) || (x.priority == e.priority && Items(x) == Items(e))
  {
    assert x in [x] + k;
    if HasExact(k, e) {
      var y :| y in k && y.priority == e.priority && Items(y) == Items(e);
      assert y in [x] + k;
    }
  }

  lemma ExactElsewhere(expected: seq<Rule>, x: Rule, k: seq<Rule>, j: nat, i: nat)
    requires NoRepeat(expected) && j < |expected| && i < |expected|
    requires x.priority == expected[j].priority && Items(x) == Items(expected[j])
    ensures HasExact([x] + k, expected[i]) <==> HasExact(k, expected[i]) || i == j
  {
    ExactCons(x, k, expected[i]);
    if x.priority == expected[i].priority && Items(x) == Items(expected[i]) {
      SameKey(expected, i, j);
    }
  }

  lemma SameExact(k: seq<Rule>, x: Rule, e: Rule)
    requires x.priority == e.priority && Items(x) == Items(e)
    ensures HasExact(k, x) <==> HasExact(k, e)
  {
  }

  lemma AccountedStep(expected: seq<Rule>, found: set<nat>, x: Rule, k: seq<Rule>, j: nat)
    requires NoRepeat(expected) && j < |expected| && j !in found
    requires x.priority == expected[j].priority && Items(x) == Items(expected[j])
    ensures Accounted(expected, found, [x] + k) && !HasExact(k, x) <==> Accounted(expected, found + {j}, k)
  {
    SameExact(k, x, expected[j]);
    if Accounted(expected, found, [x] + k) && !HasExact(k, x) {
      forall i | 0 <= i < |expected|
        ensures i in found + {j} <==> !HasExact(k, expected[i])
      {
        ExactElsewhere(expected, x, k, j, i);
      }
    }
    if Accounted(expected, found + {j}, k) {
      forall i | 0 <= i < |expected|
        ensures i in found <==> !HasExact([x] + k, expected[i])
      {
        ExactElsewhere(expected, x, k, j, i);
      }
    }
  }

  /** One owned rule of the status scan. */
  lemma StatusStep(expected: seq<Rule>, found: set<nat>, x: Rule, k: seq<Rule>)
    requires NoRepeat(expected)
    ensures var j := StatusIndex(expected, found, x);
            StatusHolds(expected, found, [x] + k) <==> j < |expected| && StatusHolds(expected, found + {j}, k)
  {
    var j := StatusIndex(expected, found, x);
    assert ([x] + k)[1..] == k;
    assert x in [x] + k;
    if j < |expected| {
      AccountedStep(expected, found, x, k, j);
      assert expected[j] in expected;
      assert HasExact(expected, x);
      assert forall y :: y in [x] + k <==> y == x || y in k;
    } else if StatusHolds(expected, found, [x] + k) {
      HeldHasIndex(expected, found, x, k);
    }
  }

  lemma HeldHasIndex(expected: seq<Rule>, found: set<nat>, x: Rule, k: seq<Rule>)
    requires NoRepeat(expected) && StatusHolds(expected, found, [x] + k)
    ensures StatusIndex(expected, found, x) < |expected|
  {
    assert x in [x] + k;
    var e :| e in expected && e.priority == x.priority && Items(e) == Items(x);
    var i :| 0 <= i < |expected| && expected[i] == e;
    ExactCons(x, k, e);
  }

  lemma {:induction false} StatusIff(s: Spec, f: Family, expected: seq<Rule>, found: set<nat>, rules: seq<Rule>)
    requires NoRepeat(expected) && !s.leave.At(f)
    ensures StatusMatches(s, expected, found, rules) <==> StatusHolds(expected, found, OwnedOf(s, f, rules))
    decreases |rules|
  {
    if |rules| > 0 {
      if s.Owned(rules[0].priority) {
        StatusStep(expected, found, rules[0], OwnedOf(s, f, rules[1..]));
        StatusIff(s, f, expected, found + {StatusIndex(expected, found, rules[0])}, rules[1..]);
      } else {
        StatusIff(s, f, expected, found, rules[1..]);
        assert [] + OwnedOf(s, f, rules[1..]) == OwnedOf(s, f, rules[1..]);
      }
    }
  }

  lemma {:induction false} NoRepeatAt(k: seq<Rule>, p: nat)
    requires NoRepeat(k)
    ensures NoRepeat(At(k, p))
  {
    if |k| > 0 {
      NoRepeatAt(k[1..], p);
      if k[0].priority == p {
        ExactAt(k[1..], k[0]);
        assert At(k, p)[1..] == At(k[1..], p);
      }
    }
  }

  lemma {:induction false} NoRepeatAll(k: seq<Rule>)
    requires forall p :: NoRepeat(At(k, p))
    ensures NoRepeat(k)
  {
    if |k| > 0 {
      var q := k[0].priority;
      assert At(k, q)[1..] == At(k[1..], q);
      assert NoRepeat(At(k, q));
      ExactAt(k[1..], k[0]);
      forall p
        ensures NoRepeat(At(k[1..], p))
      {
        assert NoRepeat(At(k, p));
        if p == q {
          assert At(k, p)[1..] == At(k[1..], p);
        }
      }
      NoRepeatAll(k[1..]);
    }
  }

  lemma {:induction false} DistinctNoRepeat(want: seq<Rule>)
    requires DistinctIdentities(want)
    ensures NoRepeat(want)
  {
    if |want| > 0 {
      DistinctNoRepeat(want[1..]);
    }
  }

  lemma ExpectedNoRepeat(s: Spec, f: Family)
    requires s.config.Valid() && Distinct(s.returnPath.At(f))
    ensures NoRepeat(Rules(s, f))
  {
    forall p
      ensures NoRepeat(At(Rules(s, f), p))
    {
      ExpectedDistinct(s, f, p);
      DistinctNoRepeat(RulesAt(s, f, p));
    }
    NoRepeatAll(Rules(s, f));
  }

  /** The compared rules are exactly the expected ones if and only if each priority's are. */
  lemma HoldsByPriority(s: Spec, f: Family, rules: seq<Rule>)
    requires s.config.Valid()
    ensures Holds(OwnedOf(s, f, rules), Rules(s, f)) <==> forall p :: Judged(s, f, p) ==> Holds(At(rules, p), RulesAt(s, f, p))
  {
    if Holds(OwnedOf(s, f, rules), Rules(s, f)) {
      forall p | Judged(s, f, p)
        ensures Holds(At(rules, p), RulesAt(s, f, p))
      {
        HoldsAt(s, f, rules, p);
      }
    }
    if forall p :: Judged(s, f, p) ==> Holds(At(rules, p), RulesAt(s, f, p)) {
      HoldsEverywhere(s, f, rules);
    }
  }

  lemma HoldsAt(s: Spec, f: Family, rules: seq<Rule>, p: nat)
    requires Holds(OwnedOf(s, f, rules), Rules(s, f)) && Judged(s, f, p)
    ensures Holds(At(rules, p), RulesAt(s, f, p))
  {
    var k, want := OwnedOf(s, f, rules), Rules(s, f);
    OwnedAt(s, f, rules, p);
    NoRepeatAt(k, p);
    forall x | x in At(rules, p)
      ensures HasExact(RulesAt(s, f, p), x)
    {
      assert x in k;
      ExactAt(want, x);
    }
    forall e | e in RulesAt(s, f, p)
      ensures HasExact(At(rules, p), e)
    {
      assert e in want;
      ExactAt(k, e);
    }
  }

  lemma HoldsEverywhere(s: Spec, f: Family, rules: seq<Rule>)
    requires s.config.Valid() && forall p :: Judged(s, f, p) ==> Holds(At(rules, p), RulesAt(s, f, p))
    ensures Holds(OwnedOf(s, f, rules), Rules(s, f))
  {
    var k, want := OwnedOf(s, f, rules), Rules(s, f);
    forall p
      ensures NoRepeat(At(k, p))
    {
      OwnedAt(s, f, rules, p);
    }
    NoRepeatAll(k);
    forall x | x in k
      ensures HasExact(want, x)
    {
      OwnedAt(s, f, rules, x.priority);
      AtMembers(rules, x);
      ExactAt(want, x);
    }
    forall e | e in want
      ensures HasExact(k, e)
    {
      AtMembers(want, e);
      OrderIsComplete(s, f, e.priority);
      RulesAtWritten(s, f, e.priority);
      OwnedAt(s, f, rules, e.priority);
      ExactAt(k, e);
    }
  }

  // ---- the judges agree ----

  lemma {:induction false} ComparedSame(s: Spec, t: Spec, f: Family, rs: seq<Rule>)
    requires s.config == t.config && s.leave.At(f) == t.leave.At(f)
    ensures Compared(s, f, rs) == Compared(t, f, rs)
  {
    if |rs| > 0 {
      ComparedSame(s, t, f, rs[1..]);
    }
  }

  /** A family's rules depend on its own entries alone. */
  lemma RulesSame(s: Spec, t: Spec, f: Family)
    requires s.config == t.config && s.leave.At(f) == t.leave.At(f)
    requires s.returnPath.At(f) == t.returnPath.At(f) && s.tempGuard.At(f) == t.tempGuard.At(f)
    ensures Rules(s, f) == Rules(t, f)
  {
    assert Written(s, f) == Written(t, f);
    ComparedSame(s, t, f, Written(s, f));
  }

  /** On a native overlay whose return path is the tunnel's address, the status holds if and only
      if the plan is empty, no owned rule is detached, and no rule admits the overlay to the
      local table. */
  lemma JudgesAgree(s: Spec, f: Family, rules: seq<Rule>, address: Opt<Addr>)
    requires NativeSpec(s, f) && s.config.IsNativeOverlay() && !s.tempGuard.At(f)
    requires s.returnPath.At(f) == (if address.Some? then [address.v] else []) && (address.Some? ==> address.v.family == f)
    ensures StatusRules(s, f, rules, address) <==>
            && Diff(s, f, rules, false) == []
            && (forall r :: r in rules && s.Owned(r.priority) ==> !Detached(r))
            && (forall r :: r in rules ==> !AdmitsOverlay(r, s.config.overlayIf))
  {
    var expected := Rules(s, f);
    RulesSame(s, StatusSpec(s, f, address), f);
    ExpectedNoRepeat(s, f);
    StatusIff(s, f, expected, {}, rules);
    EmptyPlanIff(s, f, rules);
    HoldsByPriority(s, f, rules);
    OwnedAt(s, f, rules, 0);
    StatusIsHolds(expected, OwnedOf(s, f, rules));
  }

  lemma StatusIsHolds(expected: seq<Rule>, k: seq<Rule>)
    ensures StatusHolds(expected, {}, k) <==> Holds(k, expected) && NoneDetached(k)
  {
    if Holds(k, expected) && NoneDetached(k) {
      forall i | 0 <= i < |expected|
        ensures HasExact(k, expected[i])
      {
        assert expected[i] in expected;
      }
    }
    if StatusHolds(expected, {}, k) {
      forall e | e in expected
        ensures HasExact(k, e)
      {
        var i :| 0 <= i < |expected| && expected[i] == e;
      }
    }
  }

  // ---- as multisets ----

  function Key(r: Rule): (nat, Shape) {
    (r.priority, Items(r))
  }

  function Keys(k: seq<Rule>): multiset<(nat, Shape)> {
    if |k| == 0 then multiset{} else multiset{Key(k[0])} + Keys(k[1..])
  }

  lemma {:induction false} KeysHas(k: seq<Rule>, e: Rule)
    ensures Key(e) in Keys(k) <==> HasExact(k, e)
  {
    if |k| > 0 {
      KeysHas(k[1..], e);
      ExactCons(k[0], k[1..], e);
      assert k == [k[0]] + k[1..];
    }
  }

  lemma {:induction false} KeysAtMostOne(k: seq<Rule>, e: Rule)
    requires NoRepeat(k)
    ensures Keys(k)[Key(e)] <= 1
  {
    if |k| > 0 {
      KeysAtMostOne(k[1..], e);
      KeysHas(k[1..], k[0]);
    }
  }

  lemma {:induction false} KeysFrom(k: seq<Rule>, x: (nat, Shape)) returns (r: Rule)
    requires x in Keys(k)
    ensures r in k && Key(r) == x
  {
    if x == Key(k[0]) {
      r := k[0];
    } else {
      r := KeysFrom(k[1..], x);
    }
  }

  /** Rules that are exactly the expected ones are the same multiset of priorities and items. */
  lemma HoldsAsMultiset(k: seq<Rule>, want: seq<Rule>)
    requires Holds(k, want) && NoRepeat(want)
    ensures Keys(k) == Keys(want)
  {
    forall x | x in Keys(k) || x in Keys(want)
      ensures Keys(k)[x] == Keys(want)[x]
    {
      var r;
      if x in Keys(k) {
        r := KeysFrom(k, x);
      } else {
        r := KeysFrom(want, x);
      }
      KeysHas(k, r);
      KeysHas(want, r);
      KeysAtMostOne(k, r);
      KeysAtMostOne(want, r);
    }
  }
}
