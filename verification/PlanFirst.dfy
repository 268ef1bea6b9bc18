/**
The namespaces in which a deletion lets a packet out, seen by the owner: the contract's rules are
all in, so the plan adds nothing, and the first thing it asks for is that deletion.
*/
module PlanFirst {
  import opened Rtnl
  import opened Contract
  import opened Comparison
  import opened OnePriority
  import opened Identities
  import opened Converge
  import opened ConvergeIff
  import opened Judges
  import opened Marks
  import opened Spaces
  import opened GateLimits
  import opened Stale

  // ---- a plan that adds nothing ----

  /** Every priority that expects rules holds exactly them. */
  ghost predicate NoneMissing(s: Spec, f: Family, actual: seq<Rule>) {
    forall p :: RulesAt(s, f, p) != [] ==> Holds(At(actual, p), RulesAt(s, f, p))
  }

  lemma {:induction false} NothingAdded(s: Spec, f: Family, actual: seq<Rule>, order: seq<nat>)
    requires NativeSpec(s, f) && NoneMissing(s, f, actual)
    ensures Additions(s, f, Scan(s, f, actual, START, actual), false, order) == []
    decreases |order|
  {
    hide RulesAt, At, Scan, Holds, Missing;
    if |order| > 0 {
      NothingAdded(s, f, actual, order[1..]);
      NoneMissingAt(s, f, actual, order[0]);
    }
  }

  lemma NoneMissingAt(s: Spec, f: Family, actual: seq<Rule>, p: nat)
    requires NativeSpec(s, f) && NoneMissing(s, f, actual)
    ensures AdditionsAt(s, f, Scan(s, f, actual, START, actual), false, p) == []
  {
    hide RulesAt, At, Scan, Holds, UsedBy, Removals;
    var want := RulesAt(s, f, p);
    if want == [] {
      MissingNone(Scan(s, f, actual, START, actual).UsedAt(p));
    } else {
      OrderIsComplete(s, f, p);
      ExpectedDistinct(s, f, p);
      ScanAt(s, f, actual, START, actual, want, p);
      HoldsAsksNothing(want, At(actual, p), p);
    }
  }

  lemma OneDeleted(x: Rule, g: seq<Rule>)
    requires |g| > 0 && g[0] == x
    ensures |Removals([], {}, false, g)| > 0 && Removals([], {}, false, g)[0] == Action(Del, x.priority, x)
  {
  }

  /** Nothing is missing and nothing is wrong before a priority that expects no rule: the plan
      starts with the deletion of the first rule there. */
  lemma FirstAction(s: Spec, f: Family, actual: seq<Rule>, q: nat, x: Rule)
    requires NativeSpec(s, f) && SortedByPriority(actual) && NoneMissing(s, f, actual) && s.Owned(q)
    requires forall p: nat :: s.Owned(p) && p < q ==> Holds(At(actual, p), RulesAt(s, f, p))
    requires RulesAt(s, f, q) == [] && |At(actual, q)| > 0 && At(actual, q)[0] == x
    ensures |Diff(s, f, actual, false)| > 0 && Diff(s, f, actual, false)[0] == Action(Del, q, x)
  {
    hide RulesAt, At, Scan, Holds, SortedByPriority, Additions, Removals, RemovalOf, LeftReturnPath, LeftMissing;
    var acts := Scan(s, f, actual, START, actual).removals;
    NothingAdded(s, f, actual, AddOrder(s.config));
    PlanIs(s, f, actual);
    var low, high := RemovalsSplit(s, f, actual, q);
    ScanAsks(s, f, actual);
    ScanInOrder(s, f, actual);
    EarlierNone(s, f, actual, acts, low, q);
    OneDeleted(x, At(actual, q));
  }

  lemma EarlierNone(s: Spec, f: Family, actual: seq<Rule>, acts: seq<Action>, low: seq<Action>, q: nat)
    requires NativeSpec(s, f) && FromScan(s, f, actual, acts) && AllRemovals(s, f, actual, acts)
    requires forall a :: a in low ==> a in acts && a.priority < q
    requires forall p: nat :: s.Owned(p) && p < q ==> Holds(At(actual, p), RulesAt(s, f, p))
    ensures low == []
  {
    hide RulesAt, At, Holds, Removals;
    if low != [] {
      var a := low[0];
      var p := a.priority;
      assert a in low;
      RemovalOwned(s, f, actual, acts, a);
      ExpectedDistinct(s, f, p);
      HoldsAsksNothing(RulesAt(s, f, p), At(actual, p), p);
    }
  }

  // ---- the contract in place ----

  function SpecOf(c: Config): Spec {
    Spec(c, Pair([], []), Pair(false, false), Pair(false, false))
  }

  lemma {:induction false} WrittenIs(c: Config, f: Family)
    requires NativeExit(c)
    ensures Written(SpecOf(c), f) == [Guard(c, f)] + OwnRules(c, f)
  {
    hide RuleOf;
    var s := SpecOf(c);
    assert HeadSlots(s, f) == [LocalGuard] && SidecarSlots(c, f) == [] && AllPairs(c, []) == [];
    assert TailSlots(c) == [Ingress, Egress, IngressReject];
    var middle := if c.overlay.At(f).Some? then [FromTunnel(c.overlay.At(f).v)] else [];
    assert OverlaySlots(c, f) == middle;
    assert Slots(s, f) == [LocalGuard] + (middle + [Ingress, Egress, IngressReject]);
    hide Slots, OverlaySlots, HeadSlots, TailSlots;
  }

  lemma ExpectedAre(c: Config, f: Family, p: nat)
    requires NativeExit(c)
    ensures RulesAt(SpecOf(c), f, p) == At([Guard(c, f)] + OwnRules(c, f), p)
  {
    hide RulesAt, Written, Guard, OwnRules;
    RulesAtWritten(SpecOf(c), f, p);
    WrittenIs(c, f);
  }

  lemma {:induction false} NoneAt(k: seq<Rule>, p: nat)
    requires forall r :: r in k ==> r.priority != p
    ensures At(k, p) == []
  {
    if |k| > 0 {
      assert k[0] in k;
      NoneAt(k[1..], p);
    }
  }

  lemma AtParts(a: seq<Rule>, b: seq<Rule>, c: seq<Rule>, d: seq<Rule>, p: nat)
    ensures At(a + (b + (c + d)), p) == At(a, p) + (At(b, p) + (At(c, p) + At(d, p)))
  {
    hide At;
    AtConcat(a, b + (c + d), p);
    AtConcat(b, c + d, p);
    AtConcat(c, d, p);
  }

  lemma OwnAre(c: Config, f: Family)
    requires NativeExit(c)
    ensures Guard(c, f).priority == 1 && forall r :: r in OwnRules(c, f) ==> 90 <= r.priority <= 97
  {
    GuardFirst(c, f);
    forall r | r in OwnRules(c, f)
      ensures 90 <= r.priority <= 97
    {
      OwnBland(c, f, r);
    }
  }

  /** Strays between the guard and the contract's other rules, and one behind them. */
  lemma StraysApart(c: Config, f: Family, mid: seq<Rule>, p: nat)
    requires NativeExit(c) && (forall r :: r in mid ==> 9 <= r.priority <= 11) && p <= 98
    ensures var k := [Guard(c, f)] + (mid + (OwnRules(c, f) + [Main(f)]));
            At(k, p) == if 9 <= p <= 11 then At(mid, p) else RulesAt(SpecOf(c), f, p)
  {
    hide Guard, OwnRules, RulesAt, At, NativeExit;
    var guard, own := [Guard(c, f)], OwnRules(c, f);
    OwnAre(c, f);
    ExpectedAre(c, f, p);
    AtParts(guard, mid, own, [Main(f)], p);
    AtConcat(guard, own, p);
    NoneAt([Main(f)], p);
    if 9 <= p <= 11 {
      NoneAt(guard, p);
      NoneAt(own, p);
    } else {
      NoneAt(mid, p);
    }
  }

  lemma {:induction false} NoRepeats(want: seq<Rule>)
    requires DistinctIdentities(want)
    ensures NoRepeat(want)
  {
    hide Items;
    if |want| > 0 {
      NoRepeats(want[1..]);
    }
  }

  lemma ExpectedHolds(want: seq<Rule>)
    requires DistinctIdentities(want)
    ensures Holds(want, want)
  {
    hide Items;
    NoRepeats(want);
  }

  lemma PastOwned(c: Config, f: Family, p: nat)
    requires NativeExit(c) && RulesAt(SpecOf(c), f, p) != []
    ensures p <= 98 && !(9 <= p <= 11)
  {
    ExpectedAre(c, f, p);
    GuardFirst(c, f);
    var r := RulesAt(SpecOf(c), f, p)[0];
    assert r in At([Guard(c, f)] + OwnRules(c, f), p);
    if r in OwnRules(c, f) {
      OwnBland(c, f, r);
    }
  }

  lemma OthersHold(c: Config, f: Family, mid: seq<Rule>, p: nat)
    requires NativeExit(c) && (forall r :: r in mid ==> 9 <= r.priority <= 11) && p <= 98 && !(9 <= p <= 11)
    ensures Holds(At([Guard(c, f)] + (mid + (OwnRules(c, f) + [Main(f)])), p), RulesAt(SpecOf(c), f, p))
  {
    hide Guard, OwnRules, RulesAt, At, Holds;
    StraysApart(c, f, mid, p);
    ExpectedDistinct(SpecOf(c), f, p);
    ExpectedHolds(RulesAt(SpecOf(c), f, p));
  }

  /** With the contract's rules in and strays at 9 to 11, the plan starts with the first stray. */
  lemma StrayIsFirst(c: Config, f: Family, mid: seq<Rule>)
    requires NativeExit(c) && SortedByPriority(mid) && (forall r :: r in mid ==> 9 <= r.priority <= 11)
    requires |mid| > 0 && mid[0].priority == 9
    ensures var k := [Guard(c, f)] + (mid + (OwnRules(c, f) + [Main(f)]));
            |Diff(SpecOf(c), f, k, false)| > 0 && Diff(SpecOf(c), f, k, false)[0] == Action(Del, 9, mid[0])
  {
    hide Guard, OwnRules, RulesAt, At, Diff, Holds, SortedByPriority;
    var k, s := [Guard(c, f)] + (mid + (OwnRules(c, f) + [Main(f)])), SpecOf(c);
    AllSorted(c, f, mid);
    FirstIsAt(mid, 9);
    forall p: nat | p < 9
      ensures Holds(At(k, p), RulesAt(s, f, p))
    {
      OthersHold(c, f, mid, p);
    }
    forall p | RulesAt(s, f, p) != []
      ensures Holds(At(k, p), RulesAt(s, f, p))
    {
      PastOwned(c, f, p);
      OthersHold(c, f, mid, p);
    }
    assert RulesAt(s, f, 9) == [] by {
      if RulesAt(s, f, 9) != [] {
        PastOwned(c, f, 9);
      }
    }
    StraysApart(c, f, mid, 9);
    FirstAction(s, f, k, 9, mid[0]);
  }

  lemma FirstIsAt(k: seq<Rule>, p: nat)
    requires |k| > 0 && k[0].priority == p
    ensures |At(k, p)| > 0 && At(k, p)[0] == k[0]
  {
  }

  lemma AllSorted(c: Config, f: Family, mid: seq<Rule>)
    requires NativeExit(c) && SortedByPriority(mid) && (forall r :: r in mid ==> 9 <= r.priority <= 11)
    ensures SortedByPriority([Guard(c, f)] + (mid + (OwnRules(c, f) + [Main(f)])))
  {
    hide Guard, OwnRules;
    OwnAre(c, f);
    OwnSorted(c, f);
    SortedJoin(OwnRules(c, f), [Main(f)], 97);
    SortedJoin(mid, OwnRules(c, f) + [Main(f)], 11);
    SortedJoin([Guard(c, f)], mid + (OwnRules(c, f) + [Main(f)]), 9);
  }

  /** So it is where an uncovered packet escapes. */
  lemma UncoveredIsFirst(c: Config, f: Family, list: seq<Sel>, x: Traits)
    requires NativeExit(c)
    ensures var plan := Diff(SpecOf(c), f, Before1(c, f, list, x), false);
            |plan| > 0 && plan[0] == Action(Del, 9, Spaces.Stray(f))
  {
    hide Blocks, OwnRules, Guard, Diff;
    var blocks, rest := Blocks(f, list, x), OwnRules(c, f) + [Main(f)];
    var mid := [Spaces.Stray(f)] + (blocks + [Jump(f)]);
    forall r | r in blocks
      ensures r.priority == 10
    {
      BlocksAre(f, list, x, r);
    }
    SortedTens(blocks);
    SortedJoin(blocks, [Jump(f)], 10);
    SortedJoin([Spaces.Stray(f)], blocks + [Jump(f)], 9);
    assert Before1(c, f, list, x) == [Guard(c, f)] + (mid + rest);
    StrayIsFirst(c, f, mid);
  }

  lemma SortedTens(k: seq<Rule>)
    requires forall r :: r in k ==> r.priority == 10
    ensures SortedByPriority(k)
  {
    forall i | 0 <= i < |k|
      ensures k[i].priority == 10
    {
      assert k[i] in k;
    }
  }

  /** And where the model is out of date. */
  lemma StaleIsFirst(c: Config)
    requires NativeExit(c)
    ensures var plan := Diff(SpecOf(c), V4, Strayed(c, Contract4(c)), false);
            |plan| > 0 && plan[0] == Action(Del, 9, Spaces.Stray(V4))
  {
    hide OwnRules, Guard, Diff;
    StrayIsFirst(c, V4, [Spaces.Stray(V4)]);
  }
}
