/**
One family's rule actions carried out, in order, against a kernel that grants every
request and with every deletion approved: duplicates are tolerated, removals wait for
what replaces them to be read back, a priority is rebuilt behind copies.
*/
module Repair {
  import opened Rtnl
  import opened Contract
  import opened Comparison
  import opened OnePriority
  import opened Copies

  /** The rules of rs that adding them in turn changes the kernel by. */
  function Installed(k: seq<Rule>, rs: seq<Rule>): seq<Rule>
    decreases |rs|
  {
    if |rs| == 0 then []
    else (if Duplicate(k, rs[0]) then [] else [rs[0]]) + Installed(AddRule(k, rs[0]), rs[1..])
  }

  predicate Confirmed(k: seq<Rule>, rs: seq<Rule>) {
    forall r :: r in rs ==> HasExact(k, r)
  }

  function DeleteAll(k: seq<Rule>, rs: seq<Rule>): seq<Rule> {
    if |rs| == 0 then k else DeleteAll(DeleteRule(k, rs[0]), rs[1..])
  }

  /** Delete the first rule at a priority, at most n times. */
  function Clear(k: seq<Rule>, p: nat, n: nat): seq<Rule>
    decreases n, |k|
  {
    if n == 0 then k else Clear(DeletePriority(k, p), p, n - 1)
  }

  function CopiesOf(want: seq<Rule>): (cs: seq<Rule>)
    requires forall w :: w in want ==> w.priority > 0
    ensures |cs| == |want|
  {
    seq(|want|, i requires 0 <= i < |want| => CopyOf(want[i]))
  }

  const MAX_CLEAR := 32

  /** Replace everything at a priority with want behind copies one priority earlier. */
  function Rebuild(k: seq<Rule>, p: nat, want: seq<Rule>): seq<Rule> {
    if |want| == 0 || p == 0 || exists w :: w in want && w.priority != p then k
    else
      var copies := CopiesOf(want);
      var k1 := AddAll(k, copies);
      if !Confirmed(k1, copies) then k1
      else
        var k2 := AddAll(Clear(k1, p, MAX_CLEAR), want);
        if !Confirmed(k2, want) then k2
        else DeleteAll(k2, Installed(k, copies))
  }

  // ---- the plan ----

  predicate InGuardRange(p: nat) {
    FROM_TUNNEL <= p <= INGRESS_REJECT
  }

  function GuardRule(s: Spec, f: Family): Rule {
    RuleOf(s.config, f, TempGuard)
  }

  /** What goes back at a priority: the expected rules, or the rules left to a transaction. */
  function GoesBack(s: Spec, f: Family, actual: seq<Rule>, p: nat): seq<Rule> {
    if s.Skipped(f, p) then LeftReturnPath(s, f, actual, p) else RulesAt(s, f, p)
  }

  function WithItems(rs: seq<Rule>, a: Rule): (out: seq<Rule>)
    ensures forall x :: x in out <==> x in rs && Items(x) == Items(a)
  {
    if |rs| == 0 then [] else (if Items(rs[0]) == Items(a) then [rs[0]] else []) + WithItems(rs[1..], a)
  }

  /** The expected rules a removal makes up for: the rule one priority later with the same
      items, and the guard at 1 for the kernel's own rule at 0. */
  function Dependents(s: Spec, f: Family, actual: seq<Rule>, a: Rule): seq<Rule> {
    if a.priority == 0 then RulesAt(s, f, LOCAL_GUARD)
    else WithItems(GoesBack(s, f, actual, a.priority + 1), a)
  }

  /** The plan adds this rule. */
  predicate AddedNow(plan: seq<Action>, d: Rule) {
    exists a :: a in plan && a.kind.Add? && a.priority == d.priority && Items(a.rule) == Items(d)
  }

  datatype Progress = Progress(k: seq<Rule>, rebuilt: set<nat>, guardRead: bool)

  /** A native change of 90-97 needs the temporary guard read back first. */
  predicate BehindGuard(s: Spec, f: Family, pr: Progress, p: nat) {
    !s.tempGuard.At(f) || !InGuardRange(p) || pr.guardRead || HasExact(pr.k, GuardRule(s, f))
  }

  function GuardAsked(s: Spec, f: Family, pr: Progress, p: nat): Progress {
    if s.tempGuard.At(f) && InGuardRange(p) then pr.(guardRead := true) else pr
  }

  /** Whether a removal must wait: what it makes up for was added now and is not there. */
  predicate Waits(s: Spec, f: Family, actual: seq<Rule>, plan: seq<Action>, k: seq<Rule>, a: Rule) {
    var deps := Dependents(s, f, actual, a);
    (exists d :: d in deps && AddedNow(plan, d)) && !Confirmed(k, deps)
  }

  function Carry(s: Spec, f: Family, actual: seq<Rule>, plan: seq<Action>, pr: Progress, act: Action): Progress {
    match act.kind
    case Add => pr.(k := AddRule(pr.k, act.rule))
    case Sub =>
      if act.priority in pr.rebuilt then pr
      else if !BehindGuard(s, f, pr, act.priority) then pr.(rebuilt := pr.rebuilt + {act.priority})
      else
        GuardAsked(s, f, pr, act.priority)
        .(k := Rebuild(pr.k, act.priority, GoesBack(s, f, actual, act.priority)), rebuilt := pr.rebuilt + {act.priority})
    case Del =>
      if !BehindGuard(s, f, pr, act.priority) then pr
      else if Waits(s, f, actual, plan, pr.k, act.rule) then GuardAsked(s, f, pr, act.priority)
      else GuardAsked(s, f, pr, act.priority).(k := DeleteRule(pr.k, act.rule))
  }

  function CarryAll(s: Spec, f: Family, actual: seq<Rule>, plan: seq<Action>, pr: Progress, todo: seq<Action>): Progress
    decreases |todo|
  {
    if |todo| == 0 then pr else CarryAll(s, f, actual, plan, Carry(s, f, actual, plan, pr, todo[0]), todo[1..])
  }

  /** The rules one repair round leaves, from the rules it found. */
  function Round(s: Spec, f: Family, actual: seq<Rule>): seq<Rule> {
    var plan := Diff(s, f, actual, false);
    CarryAll(s, f, actual, plan, Progress(actual, {}, false), plan).k
  }

  // ---- what the requests do to each priority ----

  lemma {:induction false} AddAllSorted(k: seq<Rule>, rs: seq<Rule>)
    requires SortedByPriority(k)
    ensures SortedByPriority(AddAll(k, rs))
    decreases |rs|
  {
    if |rs| > 0 {
      InsertSorted(k, rs[0]);
      AddAllSorted(AddRule(k, rs[0]), rs[1..]);
    }
  }

  lemma {:induction false} ClearSorted(k: seq<Rule>, p: nat, n: nat)
    requires SortedByPriority(k)
    ensures SortedByPriority(Clear(k, p, n))
    decreases n
  {
    if n > 0 {
      WithoutSorted(k, FirstAt(k, p));
      ClearSorted(DeletePriority(k, p), p, n - 1);
    }
  }

  lemma {:induction false} DeleteAllSorted(k: seq<Rule>, rs: seq<Rule>)
    requires SortedByPriority(k)
    ensures SortedByPriority(DeleteAll(k, rs))
    decreases |rs|
  {
    if |rs| > 0 {
      WithoutSorted(k, FirstMatch(k, rs[0]));
      DeleteAllSorted(DeleteRule(k, rs[0]), rs[1..]);
    }
  }

  lemma RefilledSorted(k: seq<Rule>, p: nat, want: seq<Rule>)
    requires SortedByPriority(k) && forall w :: w in want ==> w.priority > 0
    ensures SortedByPriority(AddAll(k, CopiesOf(want))) && SortedByPriority(Refilled(k, p, want))
  {
    AddAllSorted(k, CopiesOf(want));
    ClearSorted(AddAll(k, CopiesOf(want)), p, MAX_CLEAR);
    AddAllSorted(Clear(AddAll(k, CopiesOf(want)), p, MAX_CLEAR), want);
  }

  lemma AddRuleAt(k: seq<Rule>, r: Rule, q: nat)
    requires SortedByPriority(k) && !Duplicate(At(k, r.priority), r)
    ensures !Duplicate(k, r) && AddRule(k, r) == Insert(k, r) && SortedByPriority(AddRule(k, r))
    ensures At(AddRule(k, r), q) == if q == r.priority then At(k, q) + [r] else At(k, q)
  {
    ExactAt(k, r);
    InsertSorted(k, r);
    InsertAt(k, r, q);
  }

  /** Rules new to their priority go after the ones there, in order, all of them. */
  lemma {:induction false} AddAllHere(k: seq<Rule>, rs: seq<Rule>, p: nat)
    requires SortedByPriority(k) && AllAt(rs, p)
    requires DistinctIdentities(rs) && NoneThere(At(k, p), rs)
    ensures At(AddAll(k, rs), p) == At(k, p) + rs
    ensures Installed(k, rs) == rs
    decreases |rs|
  {
    if |rs| > 0 {
      assert rs[0] in rs;
      AddRuleAt(k, rs[0], p);
      NextNoneThere(At(k, p), rs);
      AddAllHere(AddRule(k, rs[0]), rs[1..], p);
      ConsSnoc(At(k, p), rs);
    }
  }

  lemma {:induction false} AddAllElsewhere(k: seq<Rule>, rs: seq<Rule>, q: nat)
    requires SortedByPriority(k) && (forall r :: r in rs ==> r.priority != q)
    ensures At(AddAll(k, rs), q) == At(k, q)
    decreases |rs|
  {
    if |rs| > 0 {
      assert rs[0] in rs;
      InsertSorted(k, rs[0]);
      InsertAt(k, rs[0], q);
      AddAllElsewhere(AddRule(k, rs[0]), rs[1..], q);
    }
  }

  lemma {:induction false} ClearAt(k: seq<Rule>, p: nat, n: nat, q: nat)
    requires |At(k, p)| <= n
    ensures At(Clear(k, p, n), q) == if q == p then [] else At(k, q)
  {
    if n > 0 {
      DeletePriorityAt(k, p, p);
      DeletePriorityAt(k, p, q);
      ClearAt(DeletePriority(k, p), p, n - 1, q);
    }
  }

  /** No delete named by cs can take a rule of k. */
  predicate NoneTaken(k: seq<Rule>, cs: seq<Rule>) {
    forall c :: c in cs ==> OutOfReach(k, c)
  }

  /** Deleting, in order, rules that stand after others they cannot take removes exactly them. */
  lemma {:induction false} DeleteAllAt(k: seq<Rule>, base: seq<Rule>, cs: seq<Rule>, p: nat, q: nat)
    requires AllAt(cs, p) && NoneTaken(base, cs) && At(k, p) == base + cs
    ensures At(DeleteAll(k, cs), q) == if q == p then base else At(k, q)
  {
    if |cs| == 0 {
      assert base + cs == base;
    } else {
      assert cs[0] in cs;
      DeletePast(base, cs[0], cs[1..]);
      assert cs == [cs[0]] + cs[1..];
      DeleteRuleAt(k, cs[0], p);
      DeleteRuleAt(k, cs[0], q);
      assert forall c :: c in cs[1..] ==> c in cs;
      DeleteAllAt(DeleteRule(k, cs[0]), base, cs[1..], p, q);
    }
  }

  lemma ConfirmedWhenThere(k: seq<Rule>, rs: seq<Rule>, p: nat)
    requires forall r :: r in rs ==> r.priority == p && r in At(k, p)
    ensures Confirmed(k, rs)
  {
  }

  /** The copies stand one priority earlier and nothing else has changed. */
  lemma CopiesAt(k: seq<Rule>, p: nat, want: seq<Rule>, q: nat)
    requires SortedByPriority(k) && p > 0 && AllAt(want, p)
    requires DistinctIdentities(want) && NoneThere(At(k, p - 1), CopiesOf(want))
    ensures var k1 := AddAll(k, CopiesOf(want));
            && At(k1, q) == (if q == p - 1 then At(k, q) + CopiesOf(want) else At(k, q))
            && Confirmed(k1, CopiesOf(want)) && Installed(k, CopiesOf(want)) == CopiesOf(want)
  {
    var copies := CopiesOf(want);
    CopiesDistinct(want, p);
    AddAllHere(k, copies, p - 1);
    ConfirmedWhenThere(AddAll(k, copies), copies, p - 1);
    if q != p - 1 {
      AddAllElsewhere(k, copies, q);
    }
  }

  /** The rebuild before its copies go. */
  function Refilled(k: seq<Rule>, p: nat, want: seq<Rule>): seq<Rule>
    requires forall w :: w in want ==> w.priority > 0
  {
    AddAll(Clear(AddAll(k, CopiesOf(want)), p, MAX_CLEAR), want)
  }

  lemma RefilledAt(k: seq<Rule>, p: nat, want: seq<Rule>, q: nat)
    requires SortedByPriority(k) && p > 0 && AllAt(want, p)
    requires DistinctIdentities(want) && |At(k, p)| <= MAX_CLEAR
    requires NoneThere(At(k, p - 1), CopiesOf(want))
    ensures Confirmed(Refilled(k, p, want), want)
    ensures At(Refilled(k, p, want), q) ==
            if q == p then want else if q == p - 1 then At(k, q) + CopiesOf(want) else At(k, q)
  {
    AddAllSorted(k, CopiesOf(want));
    CopiesAt(k, p, want, q);
    CopiesAt(k, p, want, p);
    RefillAt(AddAll(k, CopiesOf(want)), p, want, q);
  }

  /** A rebuild whose copies are apart from what is one priority earlier leaves exactly want at
      the priority and every other priority as it was. */
  lemma RebuildAt(k: seq<Rule>, p: nat, want: seq<Rule>, q: nat)
    requires SortedByPriority(k) && p > 0 && |want| > 0 && AllAt(want, p)
    requires DistinctIdentities(want) && |At(k, p)| <= MAX_CLEAR
    requires NoneThere(At(k, p - 1), CopiesOf(want)) && NoneTaken(At(k, p - 1), CopiesOf(want))
    ensures At(Rebuild(k, p, want), q) == if q == p then want else At(k, q)
  {
    CopiesAt(k, p, want, p);
    RefilledAt(k, p, want, q);
    CopiesGone(k, p, want, q);
  }

  lemma RebuildSorted(k: seq<Rule>, p: nat, want: seq<Rule>)
    requires SortedByPriority(k)
    ensures SortedByPriority(Rebuild(k, p, want))
  {
    if |want| > 0 && p > 0 && AllAt(want, p) {
      RefilledSorted(k, p, want);
      DeleteAllSorted(Refilled(k, p, want), Installed(k, CopiesOf(want)));
    }
  }

  lemma CopiesBehind(k: seq<Rule>, p: nat, want: seq<Rule>)
    requires SortedByPriority(k) && p > 0 && AllAt(want, p)
    requires DistinctIdentities(want) && |At(k, p)| <= MAX_CLEAR && NoneThere(At(k, p - 1), CopiesOf(want))
    ensures AllAt(CopiesOf(want), p - 1) && At(Refilled(k, p, want), p - 1) == At(k, p - 1) + CopiesOf(want)
  {
    hide Refilled, NoneThere, DistinctIdentities, SortedByPriority, At, CopiesOf;
    CopiesDistinct(want, p);
    RefilledAt(k, p, want, p - 1);
  }

  lemma CopiesGone(k: seq<Rule>, p: nat, want: seq<Rule>, q: nat)
    requires SortedByPriority(k) && p > 0 && AllAt(want, p)
    requires DistinctIdentities(want) && |At(k, p)| <= MAX_CLEAR
    requires NoneThere(At(k, p - 1), CopiesOf(want)) && NoneTaken(At(k, p - 1), CopiesOf(want))
    ensures var full := Refilled(k, p, want);
            At(DeleteAll(full, CopiesOf(want)), q) == if q == p - 1 then At(k, q) else At(full, q)
  {
    hide Refilled, NoneThere, NoneTaken, DistinctIdentities, SortedByPriority, DeleteAll, At, CopiesOf;
    CopiesBehind(k, p, want);
    DeleteAllAt(Refilled(k, p, want), At(k, p - 1), CopiesOf(want), p - 1, q);
  }

  lemma {:induction false} CopiesDistinct(want: seq<Rule>, p: nat)
    requires p > 0 && DistinctIdentities(want) && AllAt(want, p)
    ensures DistinctIdentities(CopiesOf(want)) && AllAt(CopiesOf(want), p - 1)
  {
    if |want| > 0 {
      var cs := CopiesOf(want);
      assert forall w :: w in want[1..] ==> w in want;
      CopiesDistinct(want[1..], p);
      assert cs[1..] == CopiesOf(want[1..]);
      if Duplicate(cs[1..], cs[0]) {
        var i :| 0 <= i < |cs[1..]| && Identity(cs[1..][i]) == Identity(cs[0]);
        var w := want[1..][i];
        assert w in want[1..];
        SameItems(w, want[0]);
      }
    }
  }

  lemma SameItems(a: Rule, b: Rule)
    requires a.priority == b.priority > 0
    ensures Identity(CopyOf(a)) == Identity(CopyOf(b)) ==> Identity(a) == Identity(b)
  {
  }

  lemma RefillAt(k1: seq<Rule>, p: nat, want: seq<Rule>, q: nat)
    requires SortedByPriority(k1) && AllAt(want, p)
    requires DistinctIdentities(want) && |At(k1, p)| <= MAX_CLEAR
    ensures var k2 := AddAll(Clear(k1, p, MAX_CLEAR), want);
            && Confirmed(k2, want)
            && At(k2, q) == if q == p then want else At(k1, q)
  {
    ClearSorted(k1, p, MAX_CLEAR);
    ClearAt(k1, p, MAX_CLEAR, q);
    ClearAt(k1, p, MAX_CLEAR, p);
    var kc := Clear(k1, p, MAX_CLEAR);
    AddAllHere(kc, want, p);
    assert [] + want == want;
    ConfirmedWhenThere(AddAll(kc, want), want, p);
    if q != p {
      AddAllElsewhere(kc, want, q);
    }
  }
}
