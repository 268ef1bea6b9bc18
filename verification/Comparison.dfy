/**
The comparison of a family's rules with the contract: which rules stay, which are
missing, which go one by one, and which priorities have to be rebuilt.
*/
module Comparison {
  import opened Rtnl
  import opened Contract

  datatype ActionKind = Add | Sub | Del

  datatype Action = Action(kind: ActionKind, priority: nat, rule: Rule)

  /** The order missing rules go in: terminal rules first. */
  function AddOrder(c: Config): seq<nat> {
    if c.IsNativeSidecar() then [97, 96, 98, 89, 88, 90, 93, 94]
    else [97, 98, 89, 92, 102, 103, 104, 1, 80, 88, 90, 91, 94, 95, 96]
  }

  /** A kernel delete with a's attributes could remove one of rules instead of a. */
  predicate DeleteMayTake(a: Rule, rules: seq<Rule>) {
    exists r :: r in rules && (SubsetOf(Items(a), Items(r)) || DeleteMatches(a, r))
  }

  predicate HasItems(rules: seq<Rule>, p: nat, want: Rule) {
    exists r :: r in rules && r.priority == p && Items(r) == Items(want)
  }

  /** The first expected rule not yet matched with exactly a's items, or the length. */
  function MatchIndex(want: seq<Rule>, used: set<nat>, a: Rule, from: nat := 0): (i: nat)
    requires from <= |want|
    ensures from <= i <= |want|
    ensures i < |want| ==> i !in used && Items(want[i]) == Items(a)
    ensures i == |want| ==> forall j :: from <= j < |want| ==> j in used || Items(want[j]) != Items(a)
    decreases |want| - from
  {
    if from == |want| then from
    else if from !in used && Items(want[from]) == Items(a) then from
    else MatchIndex(want, used, a, from + 1)
  }

  // ---- rules left to a transaction ----

  function Raised(s: Spec, f: Family, a: Rule): Rule {
    if s.Skipped(f, a.priority + 1) then a.(priority := a.priority + 1) else a
  }

  /** The return-path shaped rules found at a priority the contract skips, once each, a
      protective copy one priority earlier counting as the rule it stands in for. */
  function LeftReturnPath(s: Spec, f: Family, actual: seq<Rule>, p: nat): seq<Rule> {
    if |actual| == 0 then []
    else
      var before := LeftReturnPath(s, f, actual[..|actual| - 1], p);
      var a := Raised(s, f, actual[|actual| - 1]);
      if a.priority == p && s.Skipped(f, p) && ReturnPathShaped(s, f, a) && !HasItems(before, p, a)
      then before + [a] else before
  }

  /** A rule just below the owned range that is exactly an expected rule of the priority above. */
  predicate LeftoverCopy(s: Spec, f: Family, a: Rule) {
    && s.Owned(a.priority + 1)
    && exists e :: e in RulesAt(s, f, a.priority + 1) && Items(a) == Items(e)
  }

  // ---- the scan over the rules found ----

  /** One priority's part of the scan: the expected rules matched, whether a rebuild is
      asked for, and what one rule adds to the removals. */
  datatype Found = Found(used: set<nat>, subbed: bool, removals: seq<Action>)

  function JudgeExpected(want: seq<Rule>, used: set<nat>, subbed: bool, a: Rule): Found {
    if |want| == 0 then Found(used, subbed, [Action(Del, a.priority, a)])
    else
      var i := MatchIndex(want, used, a);
      if i < |want| then Found(used + {i}, subbed, [])
      else if DeleteMayTake(a, want) then
        Found(used, true, if subbed then [] else [Action(Sub, a.priority, a)])
      else Found(used, subbed, [Action(Del, a.priority, a)])
  }

  function JudgeSkipped(shaped: bool, left: seq<Rule>, used: set<nat>, subbed: bool, a: Rule): Found {
    if shaped then Found(used, subbed, [])
    else if DeleteMayTake(a, left) then
      Found(used, true, if subbed then [] else [Action(Sub, a.priority, a)])
    else Found(used, subbed, [Action(Del, a.priority, a)])
  }

  datatype DiffState = DiffState(used: map<nat, set<nat>>, subbed: set<nat>, removals: seq<Action>) {
    function UsedAt(p: nat): set<nat> {
      if p in used then used[p] else {}
    }

    function After(p: nat, one: Found): DiffState {
      DiffState(used[p := one.used], if one.subbed then subbed + {p} else subbed, removals + one.removals)
    }
  }

  /** The scan's verdict on one rule; all is the whole list found. */
  function Finding(s: Spec, f: Family, all: seq<Rule>, used: set<nat>, subbed: bool, a: Rule): Found {
    var p := a.priority;
    if !s.Owned(p) then Found(used, subbed, if LeftoverCopy(s, f, a) then [Action(Del, p, a)] else [])
    else if s.Skipped(f, p) then
      JudgeSkipped(ReturnPathShaped(s, f, a), LeftReturnPath(s, f, all, p), used, subbed, a)
    else JudgeExpected(RulesAt(s, f, p), used, subbed, a)
  }

  function Judge(s: Spec, f: Family, all: seq<Rule>, st: DiffState, a: Rule): DiffState {
    st.After(a.priority, Finding(s, f, all, st.UsedAt(a.priority), a.priority in st.subbed, a))
  }

  function Scan(s: Spec, f: Family, all: seq<Rule>, st: DiffState, rest: seq<Rule>): DiffState
    decreases |rest|
  {
    if |rest| == 0 then st else Scan(s, f, all, Judge(s, f, all, st, rest[0]), rest[1..])
  }

  const START := DiffState(map[], {}, [])

  // ---- the additions ----

  function Missing(want: seq<Rule>, used: set<nat>, from: nat := 0): seq<Rule>
    requires from <= |want|
    decreases |want| - from
  {
    if from == |want| then []
    else (if from in used then [] else [want[from]]) + Missing(want, used, from + 1)
  }

  function AddActions(p: nat, rules: seq<Rule>): seq<Action> {
    seq(|rules|, i requires 0 <= i < |rules| => Action(Add, p, rules[i]))
  }

  /** The additions at one priority; a held kill switch waits. */
  function AdditionsAt(s: Spec, f: Family, st: DiffState, hold: bool, p: nat): seq<Action> {
    if p == KILL_SWITCH && hold then [] else AddActions(p, Missing(RulesAt(s, f, p), st.UsedAt(p)))
  }

  function Additions(s: Spec, f: Family, st: DiffState, hold: bool, order: seq<nat>): seq<Action> {
    if |order| == 0 then []
    else AdditionsAt(s, f, st, hold, order[0]) + Additions(s, f, st, hold, order[1..])
  }

  function LeftMissing(actual: seq<Rule>, p: nat, left: seq<Rule>): seq<Action> {
    if |left| == 0 then []
    else
      (if HasItems(actual, p, left[0]) then [] else [Action(Add, p, left[0])])
      + LeftMissing(actual, p, left[1..])
  }

  /** The actions that restore the contract, in the order to apply them. */
  function Diff(s: Spec, f: Family, actual: seq<Rule>, hold: bool): seq<Action> {
    var st := Scan(s, f, actual, START, actual);
    Additions(s, f, st, hold, AddOrder(s.config))
    + LeftMissing(actual, BACKSTOP, LeftReturnPath(s, f, actual, BACKSTOP))
    + LeftMissing(actual, RETURN_PATH, LeftReturnPath(s, f, actual, RETURN_PATH))
    + st.removals
  }

  predicate AllAdds(acts: seq<Action>) {
    forall a :: a in acts ==> a.kind.Add?
  }

  lemma {:induction false} AdditionsAreAdds(s: Spec, f: Family, st: DiffState, order: seq<nat>)
    ensures AllAdds(Additions(s, f, st, false, order))
  {
    if |order| > 0 {
      AdditionsAreAdds(s, f, st, order[1..]);
    }
  }

  lemma {:induction false} LeftAreAdds(actual: seq<Rule>, p: nat, left: seq<Rule>)
    ensures AllAdds(LeftMissing(actual, p, left))
  {
    if |left| > 0 {
      LeftAreAdds(actual, p, left[1..]);
    }
  }

  // ---- the imperative form ----

  lemma TakeSnoc(a: Rule, want: seq<Rule>, i: nat)
    requires i < |want|
    ensures DeleteMayTake(a, want[..i + 1]) <==>
            DeleteMayTake(a, want[..i]) || SubsetOf(Items(a), Items(want[i])) || DeleteMatches(a, want[i])
  {
    assert want[..i + 1] == want[..i] + [want[i]];
  }

  /** The loop over an expected list: the index matched, and whether a delete could take one. */
  method MatchExpected(want: seq<Rule>, used: set<nat>, a: Rule) returns (kept: bool, index: nat, covered: bool)
    ensures kept <==> MatchIndex(want, used, a) < |want|
    ensures kept ==> index == MatchIndex(want, used, a)
    ensures !kept ==> (covered <==> DeleteMayTake(a, want))
  {
    kept, covered, index := false, false, 0;
    while index < |want|
      invariant 0 <= index <= |want|
      invariant MatchIndex(want, used, a) == MatchIndex(want, used, a, index)
      invariant covered <==> DeleteMayTake(a, want[..index])
    {
      var e := want[index];
      if index !in used && Items(e) == Items(a) {
        kept := true;
        return;
      }
      TakeSnoc(a, want, index);
      if SubsetOf(Items(a), Items(e)) || DeleteMatches(a, e) {
        covered := true;
      }
      index := index + 1;
    }
    assert want[..|want|] == want;
  }

  /** The verdict on a rule at a priority that is compared, marking the expected rule it takes. */
  method RunJudge(want: seq<Rule>, st: DiffState, a: Rule) returns (next: DiffState)
    ensures next == st.After(a.priority, JudgeExpected(want, st.UsedAt(a.priority), a.priority in st.subbed, a))
  {
    var p := a.priority;
    var used := st.UsedAt(p);
    next := st;
    if |want| == 0 {
      next := next.(removals := next.removals + [Action(Del, p, a)]);
    } else {
      var kept, index, covered := MatchExpected(want, used, a);
      if kept {
        used := used + {index};
      } else if covered {
        if p !in next.subbed {
          next := next.(removals := next.removals + [Action(Sub, p, a)], subbed := next.subbed + {p});
        }
      } else {
        next := next.(removals := next.removals + [Action(Del, p, a)]);
      }
    }
    next := next.(used := next.used[p := used]);
  }

  /** The scan as the code runs it: one pass over the rules found. */
  method RunScan(s: Spec, f: Family, actual: seq<Rule>) returns (st: DiffState)
    ensures st == Scan(s, f, actual, START, actual)
  {
    st := START;
    for i := 0 to |actual|
      invariant Scan(s, f, actual, st, actual[i..]) == Scan(s, f, actual, START, actual)
    {
      var a := actual[i];
      assert actual[i..][0] == a && actual[i..][1..] == actual[i + 1..];
      if s.Owned(a.priority) && !s.Skipped(f, a.priority) {
        st := RunJudge(RulesAt(s, f, a.priority), st, a);
      } else {
        st := Judge(s, f, actual, st, a);
      }
    }
  }

  method RunAdditions(s: Spec, f: Family, st: DiffState, hold: bool, order: seq<nat>) returns (out: seq<Action>)
    ensures out == Additions(s, f, st, hold, order)
  {
    hide AdditionsAt;
    out := [];
    for i := 0 to |order|
      invariant out + Additions(s, f, st, hold, order[i..]) == Additions(s, f, st, hold, order)
    {
      assert order[i..][1..] == order[i + 1..];
      var here := AdditionsAt(s, f, st, hold, order[i]);
      ghost var rest := Additions(s, f, st, hold, order[i + 1..]);
      assert out + (here + rest) == (out + here) + rest;
      out := out + here;
    }
  }

  /** Diff as the code runs it: the scan, then the additions in their fixed order. */
  method RunDiff(s: Spec, f: Family, actual: seq<Rule>, hold: bool) returns (out: seq<Action>)
    ensures out == Diff(s, f, actual, hold)
  {
    var st := RunScan(s, f, actual);
    out := RunAdditions(s, f, st, hold, AddOrder(s.config));
    out := out + LeftMissing(actual, BACKSTOP, LeftReturnPath(s, f, actual, BACKSTOP));
    out := out + LeftMissing(actual, RETURN_PATH, LeftReturnPath(s, f, actual, RETURN_PATH));
    out := out + st.removals;
  }
}
