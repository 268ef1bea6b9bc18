/**
One priority of the comparison: what the removals found for it do to the rules there
under the kernel's first-match delete, once the missing rules have been added.
*/
module OnePriority {
  import opened Rtnl
  import opened Comparison

  /** The kernel reports the rule in the form the contract writes rules in: no installer, its
      prefixes masked, no mark that its mask ignores. The items of a rule hide all three,
      the kernel's delete compares them. */
  predicate Plain(x: Rule) {
    && (x.protocol.None? || x.protocol.v == 0)
    && MaskedOpt(x.src) == x.src
    && MaskedOpt(x.dst) == x.dst
    && (x.EffectiveMark().1 == 0 ==> x.fwMark.None? || x.fwMark.v == 0)
  }

  /** The form of every rule the contract writes. */
  predicate Standard(e: Rule) {
    && Plain(e)
    && e.protocol.None?
    && (e.action == ACT_TO_TABLE || (e.action == ACT_UNREACHABLE && e.table == 0))
    && (e.fwMark.Some? <==> e.fwMask.Some?)
    && (e.fwMark.Some? ==> e.fwMark.v != 0 && e.fwMask.v == ALL_ONES)
    && e.extraFlags == 0
    && e.tos == 0
    && e.jump.None?
    && e.l3mdev.None?
    && e.unknown == []
    && !e.bad
    && (e.src.Some? ==> e.src.v.len > 0)
    && (e.dst.Some? ==> e.dst.v.len > 0)
  }

  predicate AllStandard(want: seq<Rule>) {
    forall e :: e in want ==> Standard(e)
  }

  predicate AllAt(g: seq<Rule>, p: nat) {
    forall x :: x in g ==> x.priority == p
  }

  /** Exactly one of the expected rules. */
  predicate IsExpected(x: Rule, want: seq<Rule>) {
    exists e :: e in want && Items(x) == Items(e)
  }

  /** Every rule found with exactly an expected rule's items is in plain form. */
  predicate PlainLookalikes(want: seq<Rule>, g: seq<Rule>) {
    forall x :: x in g && IsExpected(x, want) ==> Plain(x)
  }

  /** The rules are exactly the expected ones: as many, each expected rule there, nothing else. */
  predicate ExactRules(k: seq<Rule>, want: seq<Rule>) {
    && |k| == |want|
    && (forall e :: e in want ==> exists x :: x in k && Items(x) == Items(e))
    && (forall x :: x in k ==> IsExpected(x, want))
  }

  // ---- the scan of one priority ----

  function UsedBy(want: seq<Rule>, used: set<nat>, g: seq<Rule>): set<nat>
    decreases |g|
  {
    if |g| == 0 then used else UsedBy(want, JudgeExpected(want, used, false, g[0]).used, g[1..])
  }

  function Kept(want: seq<Rule>, used: set<nat>, g: seq<Rule>): seq<Rule>
    decreases |g|
  {
    if |g| == 0 then []
    else
      (if MatchIndex(want, used, g[0]) < |want| then [g[0]] else [])
      + Kept(want, JudgeExpected(want, used, false, g[0]).used, g[1..])
  }

  function Removals(want: seq<Rule>, used: set<nat>, subbed: bool, g: seq<Rule>): seq<Action>
    decreases |g|
  {
    if |g| == 0 then []
    else
      var v := JudgeExpected(want, used, subbed, g[0]);
      v.removals + Removals(want, v.used, v.subbed, g[1..])
  }

  /** The removals carried out at the priority: a Del takes the first match, a Sub rebuilds. */
  function RunOne(want: seq<Rule>, acts: seq<Action>, k: seq<Rule>): seq<Rule> {
    if |acts| == 0 then k
    else
      RunOne(want, acts[1..],
             match acts[0].kind
             case Add => k
             case Sub => want
             case Del => DeleteRule(k, acts[0].rule))
  }

  // ---- why a Del cannot hit a rule that stays ----

  lemma PlainIsMatchedAsExpected(a: Rule, x: Rule, e: Rule)
    requires Standard(e) && Plain(x) && Items(x) == Items(e) && x.priority == e.priority
    requires DeleteMatches(a, x)
    ensures DeleteMatches(a, e)
  {
    NoUnknown(x);
  }

  lemma NoUnknown(x: Rule)
    ensures x.unknown != [] ==> Items(x).unknown != {}
  {
    if x.unknown != [] {
      assert x.unknown[0] in Items(x).unknown;
    }
  }

  /** The exact condition: a rule that stays is out of reach of every Del the comparison can
      ask for at its priority if and only if it is in plain form. */
  lemma KeptOutOfReachIff(want: seq<Rule>, e: Rule, x: Rule)
    requires e in want && AllStandard(want) && Items(x) == Items(e) && AllAt(want, x.priority)
    requires forall d :: d in want && d != e ==> !SameTarget(x, d)
    ensures Plain(x) <==> forall a: Rule :: a.priority == x.priority && !DeleteMayTake(a, want) ==> !DeleteMatches(a, x)
  {
    if Plain(x) {
      forall a: Rule | a.priority == x.priority && !DeleteMayTake(a, want)
        ensures !DeleteMatches(a, x)
      {
        if DeleteMatches(a, x) {
          PlainIsMatchedAsExpected(a, x, e);
        }
      }
    } else {
      var a := Stray(x);
      StrayTakes(want, e, x);
      assert a.priority == x.priority && !DeleteMayTake(a, want) && DeleteMatches(a, x);
    }
  }

  /** A delete by x's own source and destination could name d. */
  predicate SameTarget(x: Rule, d: Rule) {
    WildPrefix(x.src, d.src) && WildPrefix(x.dst, d.dst)
  }

  /** x with one flag bit no expected rule has. */
  function Stray(x: Rule): Rule {
    x.(extraFlags := 0x10000)
  }

  lemma StrayTakes(want: seq<Rule>, e: Rule, x: Rule)
    requires e in want && AllStandard(want) && Items(x) == Items(e) && !Plain(x) && AllAt(want, x.priority)
    requires forall d :: d in want && d != e ==> !SameTarget(x, d)
    ensures !DeleteMayTake(Stray(x), want) && DeleteMatches(Stray(x), x)
  {
    var a := Stray(x);
    forall d | d in want
      ensures !SubsetOf(Items(a), Items(d)) && !DeleteMatches(a, d)
    {
      assert Standard(d);
      if d != e {
        assert !SameTarget(x, d);
      }
    }
  }

  // ---- lists without repeats ----

  /** No two of the rules are the same to the kernel. */
  predicate DistinctIdentities(rs: seq<Rule>) {
    |rs| > 0 ==> !Duplicate(rs[1..], rs[0]) && DistinctIdentities(rs[1..])
  }

  /** None of rs is already there. */
  predicate NoneThere(k: seq<Rule>, rs: seq<Rule>) {
    forall r :: r in rs ==> !Duplicate(k, r)
  }

  lemma DuplicateSnoc(k: seq<Rule>, x: Rule, r: Rule)
    ensures Duplicate(k + [x], r) <==> Duplicate(k, r) || Identity(x) == Identity(r)
  {
    if Duplicate(k, r) {
      var y :| y in k && Identity(y) == Identity(r);
      assert y in k + [x];
    }
    if Identity(x) == Identity(r) {
      assert x in k + [x];
    }
  }

  lemma NextNoneThere(k: seq<Rule>, rs: seq<Rule>)
    requires |rs| > 0 && NoneThere(k, rs) && DistinctIdentities(rs)
    ensures NoneThere(k + [rs[0]], rs[1..])
  {
    forall r | r in rs[1..]
      ensures !Duplicate(k + [rs[0]], r)
    {
      assert r in rs;
      DuplicateSnoc(k, rs[0], r);
    }
  }

  lemma ConsSnoc<T>(a: seq<T>, b: seq<T>)
    requires |b| > 0
    ensures (a + [b[0]]) + b[1..] == a + b
  {
  }

  lemma {:induction false} SameIdentityIndex(want: seq<Rule>, i: nat, j: nat)
    requires DistinctIdentities(want) && i < |want| && j < |want| && Identity(want[i]) == Identity(want[j])
    ensures i == j
  {
    if i > 0 && j > 0 {
      SameIdentityIndex(want[1..], i - 1, j - 1);
    } else {
      assert forall l :: 0 < l < |want| ==> want[l] in want[1..];
    }
  }

  lemma SameIndex(want: seq<Rule>, p: nat, i: nat, j: nat)
    requires DistinctIdentities(want) && AllAt(want, p)
    requires i < |want| && j < |want| && Items(want[i]) == Items(want[j])
    ensures i == j
  {
    assert want[i] in want && want[j] in want;
    SameIdentityIndex(want, i, j);
  }

  lemma {:induction false} MissingDistinct(want: seq<Rule>, used: set<nat>, from: nat)
    requires from <= |want| && DistinctIdentities(want[from..])
    ensures DistinctIdentities(Missing(want, used, from))
    ensures forall x :: x in Missing(want, used, from) ==> x in want[from..]
    decreases |want| - from
  {
    if from < |want| {
      assert want[from..][1..] == want[from + 1..];
      MissingDistinct(want, used, from + 1);
      var rest := Missing(want, used, from + 1);
      assert ([want[from]] + rest)[1..] == rest && [] + rest == rest;
    }
  }

  /** Rules new to a priority go after the ones there, in order. */
  lemma {:induction false} AddAllNew(g: seq<Rule>, rs: seq<Rule>, p: nat)
    requires AllAt(g, p) && AllAt(rs, p) && DistinctIdentities(rs) && NoneThere(g, rs)
    ensures AddAll(g, rs) == g + rs
    decreases |rs|
  {
    if |rs| > 0 {
      assert rs[0] in rs;
      InsertLast(g, rs[0]);
      NextNoneThere(g, rs);
      AddAllNew(g + [rs[0]], rs[1..], p);
      ConsSnoc(g, rs);
    }
  }

  lemma {:induction false} InsertLast(g: seq<Rule>, r: Rule)
    requires AllAt(g, r.priority)
    ensures Insert(g, r) == g + [r]
  {
    if |g| > 0 {
      InsertLast(g[1..], r);
      assert g == [g[0]] + g[1..];
    }
  }

  // ---- the removals without a rebuild ----

  predicate NoSub(acts: seq<Action>) {
    forall a :: a in acts ==> a.kind.Del?
  }

  /** A rule the scan removes one by one cannot take an expected rule. */
  lemma {:induction false} DelsAreUncovered(want: seq<Rule>, used: set<nat>, subbed: bool, g: seq<Rule>, act: Action)
    requires act in Removals(want, used, subbed, g)
    ensures act.rule in g && act.priority == act.rule.priority && !act.kind.Add?
    ensures act.kind.Del? ==> !DeleteMayTake(act.rule, want)
    ensures act.kind.Sub? ==> |want| > 0
    decreases |g|
  {
    var v := JudgeExpected(want, used, subbed, g[0]);
    if act !in v.removals {
      DelsAreUncovered(want, v.used, v.subbed, g[1..], act);
    }
  }

  lemma {:induction false} KeptAreExpected(want: seq<Rule>, used: set<nat>, g: seq<Rule>, x: Rule)
    requires x in Kept(want, used, g)
    ensures x in g && IsExpected(x, want)
    decreases |g|
  {
    var i := MatchIndex(want, used, g[0]);
    if i < |want| && x == g[0] {
      assert want[i] in want;
    } else {
      KeptAreExpected(want, JudgeExpected(want, used, false, g[0]).used, g[1..], x);
    }
  }

  /** A delete by a's attributes finds none of the rules. */
  predicate OutOfReach(k: seq<Rule>, a: Rule) {
    forall x :: x in k ==> !DeleteMatches(a, x)
  }

  /** No rule that goes one by one comes after a rule that stays and that its delete would
      find first; pre are the rules that stay so far. */
  predicate DelsLand(want: seq<Rule>, used: set<nat>, pre: seq<Rule>, g: seq<Rule>)
    decreases |g|
  {
    |g| > 0 ==>
      if MatchIndex(want, used, g[0]) < |want|
      then DelsLand(want, JudgeExpected(want, used, false, g[0]).used, pre + [g[0]], g[1..])
      else OutOfReach(pre, g[0]) && DelsLand(want, used, pre, g[1..])
  }

  lemma DeletePast(pre: seq<Rule>, a: Rule, rest: seq<Rule>)
    requires OutOfReach(pre, a)
    ensures DeleteRule(pre + ([a] + rest), a) == pre + rest
  {
    var k := pre + ([a] + rest);
    forall j | 0 <= j < |pre|
      ensures !DeleteMatches(a, k[j])
    {
      assert k[j] == pre[j] && pre[j] in pre;
    }
    MatchesItself(a);
    assert k[|pre|] == a;
    assert FirstMatch(k, a) == |pre|;
  }

  lemma ShiftHead<T>(pre: seq<T>, g: seq<T>, tail: seq<T>)
    requires |g| > 0
    ensures pre + g + tail == (pre + [g[0]]) + g[1..] + tail
    ensures pre + g + tail == pre + ([g[0]] + (g[1..] + tail))
    ensures pre + g[1..] + tail == pre + (g[1..] + tail)
    ensures pre + g + tail == pre + (g + tail)
  {
  }

  lemma KeptHead<T>(pre: seq<T>, x: T, kept: seq<T>, tail: seq<T>)
    ensures (pre + [x]) + kept + tail == pre + ([x] + kept) + tail
  {
  }

  /** Deletes carried out in the order found take the strays themselves, one after the other. */
  lemma {:induction false} DelsTakeStrays(want: seq<Rule>, used: set<nat>, pre: seq<Rule>, g: seq<Rule>, tail: seq<Rule>)
    requires DelsLand(want, used, pre, g)
    requires NoSub(Removals(want, used, false, g))
    ensures RunOne(want, Removals(want, used, false, g), pre + g + tail) == pre + Kept(want, used, g) + tail
    decreases |g|
  {
    if |g| == 0 {
      assert g == Kept(want, used, g);
    } else if MatchIndex(want, used, g[0]) < |want| {
      KeepStep(want, used, g);
      var u := JudgeExpected(want, used, false, g[0]).used;
      ShiftHead(pre, g, tail);
      DelsTakeStrays(want, u, pre + [g[0]], g[1..], tail);
      KeptHead(pre, g[0], Kept(want, u, g[1..]), tail);
    } else {
      ShiftHead(pre, g, tail);
      DelStep(want, used, g, pre + g + tail);
      DeletePast(pre, g[0], g[1..] + tail);
      DelsTakeStrays(want, used, pre, g[1..], tail);
    }
  }

  lemma KeepStep(want: seq<Rule>, used: set<nat>, g: seq<Rule>)
    requires |g| > 0 && MatchIndex(want, used, g[0]) < |want|
    ensures IsExpected(g[0], want)
    ensures var u := JudgeExpected(want, used, false, g[0]).used;
            && Removals(want, used, false, g) == Removals(want, u, false, g[1..])
            && Kept(want, used, g) == [g[0]] + Kept(want, u, g[1..])
  {
    assert want[MatchIndex(want, used, g[0])] in want;
  }

  lemma DelStep(want: seq<Rule>, used: set<nat>, g: seq<Rule>, k: seq<Rule>)
    requires |g| > 0 && MatchIndex(want, used, g[0]) == |want|
    requires NoSub(Removals(want, used, false, g))
    ensures JudgeExpected(want, used, false, g[0]).used == used
    ensures NoSub(Removals(want, used, false, g[1..]))
    ensures Kept(want, used, g) == Kept(want, used, g[1..])
    ensures RunOne(want, Removals(want, used, false, g), k) ==
            RunOne(want, Removals(want, used, false, g[1..]), DeleteRule(k, g[0]))
  {
    var v := JudgeExpected(want, used, false, g[0]);
    var all := Removals(want, used, false, g);
    assert all[0] == v.removals[0] && all[0] in all;
    assert v == Found(used, false, [Action(Del, g[0].priority, g[0])]);
    assert all[1..] == Removals(want, used, false, g[1..]);
    assert forall act :: act in all[1..] ==> act in all;
  }

  /** Plain lookalikes are clear of every rule that goes one by one. */
  lemma {:induction false} PlainDelsLand(want: seq<Rule>, used: set<nat>, pre: seq<Rule>, g: seq<Rule>, p: nat)
    requires AllStandard(want) && AllAt(want, p) && AllAt(g, p)
    requires AllPlainExpected(want, pre, p)
    requires PlainLookalikes(want, g) && NoSub(Removals(want, used, false, g))
    ensures DelsLand(want, used, pre, g)
    decreases |g|
  {
    if |g| > 0 {
      if MatchIndex(want, used, g[0]) < |want| {
        KeepStep(want, used, g);
        PlainDelsLand(want, JudgeExpected(want, used, false, g[0]).used, pre + [g[0]], g[1..], p);
      } else {
        DelStep(want, used, g, g);
        var all := Removals(want, used, false, g);
        assert all[0] in all;
        DelsAreUncovered(want, used, false, g, all[0]);
        PlainOutOfReach(want, pre, g[0], p);
        PlainDelsLand(want, used, pre, g[1..], p);
      }
    }
  }

  predicate AllPlainExpected(want: seq<Rule>, pre: seq<Rule>, p: nat) {
    forall x :: x in pre ==> Plain(x) && IsExpected(x, want) && x.priority == p
  }

  lemma PlainOutOfReach(want: seq<Rule>, pre: seq<Rule>, a: Rule, p: nat)
    requires AllStandard(want) && AllAt(want, p) && AllPlainExpected(want, pre, p) && !DeleteMayTake(a, want)
    ensures OutOfReach(pre, a)
  {
    forall x | x in pre
      ensures !DeleteMatches(a, x)
    {
      var e :| e in want && Items(x) == Items(e);
      if DeleteMatches(a, x) {
        PlainIsMatchedAsExpected(a, x, e);
      }
    }
  }

  // ---- counting what stays ----

  lemma {:induction false} KeptCount(want: seq<Rule>, used: set<nat>, g: seq<Rule>)
    requires forall i :: i in used ==> i < |want|
    ensures forall i :: i in UsedBy(want, used, g) ==> i < |want|
    ensures used <= UsedBy(want, used, g)
    ensures |Kept(want, used, g)| + |used| == |UsedBy(want, used, g)|
    ensures forall i :: i in UsedBy(want, used, g) && i !in used ==>
              exists x :: x in Kept(want, used, g) && Items(x) == Items(want[i])
    decreases |g|
  {
    hide Items, DeleteMayTake;
    if |g| > 0 {
      var u := JudgeExpected(want, used, false, g[0]).used;
      KeptCount(want, u, g[1..]);
    }
  }

  function Above(used: set<nat>, from: nat): set<nat> {
    set i | i in used && from <= i
  }

  lemma {:induction false} MissingCount(want: seq<Rule>, used: set<nat>, from: nat)
    requires from <= |want| && forall i :: i in used ==> i < |want|
    ensures |Missing(want, used, from)| + |Above(used, from)| == |want| - from
    ensures forall i :: from <= i < |want| && i !in used ==> want[i] in Missing(want, used, from)
    ensures forall x :: x in Missing(want, used, from) ==> x in want
    decreases |want| - from
  {
    var here := Above(used, from);
    if from == |want| {
      assert here == {};
    } else {
      MissingCount(want, used, from + 1);
      var later := Above(used, from + 1);
      assert from !in later;
      if from in used {
        assert here == later + {from};
        assert |here| == |later| + 1;
        assert |Missing(want, used, from)| == |Missing(want, used, from + 1)|;
      } else {
        assert here == later;
        assert |Missing(want, used, from)| == |Missing(want, used, from + 1)| + 1;
      }
    }
  }

  // ---- the priority ends exact ----

  lemma {:induction false} ClearedStays(want: seq<Rule>, used: set<nat>, subbed: bool, g: seq<Rule>)
    requires subbed
    ensures RunOne(want, Removals(want, used, subbed, g), want) == want
    decreases |g|
  {
    if |g| > 0 {
      var v := JudgeExpected(want, used, subbed, g[0]);
      ClearedStays(want, v.used, v.subbed, g[1..]);
      if |v.removals| > 0 {
        var act := v.removals[0];
        assert act.kind.Del?;
        assert !DeleteMayTake(g[0], want);
        assert FirstMatch(want, act.rule) == |want|;
        assert DeleteRule(want, act.rule) == want;
        assert Removals(want, used, subbed, g)[1..] == Removals(want, v.used, v.subbed, g[1..]);
      } else {
        assert Removals(want, used, subbed, g) == Removals(want, v.used, v.subbed, g[1..]);
      }
    }
  }

  /** Once a rebuild has been asked for, the priority ends as the expected list itself. */
  lemma {:induction false} RebuiltEndsExpected(want: seq<Rule>, used: set<nat>, g: seq<Rule>, k: seq<Rule>)
    requires !NoSub(Removals(want, used, false, g))
    ensures RunOne(want, Removals(want, used, false, g), k) == want
    decreases |g|
  {
    var v := JudgeExpected(want, used, false, g[0]);
    var rest := Removals(want, v.used, v.subbed, g[1..]);
    if |v.removals| > 0 && v.removals[0].kind.Sub? {
      assert Removals(want, used, false, g)[1..] == rest;
      ClearedStays(want, v.used, v.subbed, g[1..]);
    } else {
      assert !v.subbed;
      assert !NoSub(rest);
      if |v.removals| > 0 {
        assert Removals(want, used, false, g)[1..] == rest;
        RebuiltEndsExpected(want, v.used, g[1..], DeleteRule(k, v.removals[0].rule));
      } else {
        assert Removals(want, used, false, g) == rest;
        RebuiltEndsExpected(want, v.used, g[1..], k);
      }
    }
  }

  /** What stays and what is added are together the expected rules. */
  lemma KeptAndMissing(want: seq<Rule>, g: seq<Rule>)
    ensures ExactRules(Kept(want, {}, g) + Missing(want, UsedBy(want, {}, g)), want)
  {
    var used := UsedBy(want, {}, g);
    var kept, missing := Kept(want, {}, g), Missing(want, used);
    KeptCount(want, {}, g);
    MissingCount(want, used, 0);
    assert Above(used, 0) == used;
    forall e | e in want
      ensures exists x :: x in kept + missing && Items(x) == Items(e)
    {
      ExpectedPresent(want, g, e);
    }
    forall x | x in kept + missing
      ensures IsExpected(x, want)
    {
      if x in kept {
        KeptAreExpected(want, {}, g, x);
      }
    }
  }

  lemma ExpectedPresent(want: seq<Rule>, g: seq<Rule>, e: Rule)
    requires e in want
    ensures exists x :: x in Kept(want, {}, g) + Missing(want, UsedBy(want, {}, g)) && Items(x) == Items(e)
  {
    var used := UsedBy(want, {}, g);
    var kept, missing := Kept(want, {}, g), Missing(want, used);
    KeptCount(want, {}, g);
    MissingCount(want, used, 0);
    var i :| 0 <= i < |want| && want[i] == e;
    if i in used {
      var x :| x in kept && Items(x) == Items(want[i]);
      assert x in kept + missing;
    } else {
      assert e in kept + missing;
    }
  }

  /** What the priority holds after its additions and then its removals. */
  function Ends(want: seq<Rule>, g: seq<Rule>): seq<Rule> {
    RunOne(want, Removals(want, {}, false, g), AddAll(g, Missing(want, UsedBy(want, {}, g))))
  }

  /** The exact condition, told from the rules found: the priority is rebuilt, or no missing
      rule is refused as a duplicate and no delete finds a rule that stays first. */
  predicate Settles(want: seq<Rule>, g: seq<Rule>) {
    || !NoSub(Removals(want, {}, false, g))
    || (NoneThere(g, Missing(want, UsedBy(want, {}, g))) && DelsLand(want, {}, [], g))
  }

  lemma NothingFirst<T>(a: seq<T>, b: seq<T>)
    ensures [] + a + b == a + b
  {
  }

  lemma ClearEnds(want: seq<Rule>, g: seq<Rule>, p: nat)
    requires AllAt(want, p) && AllAt(g, p) && DistinctIdentities(want)
    requires NoSub(Removals(want, {}, false, g))
    requires NoneThere(g, Missing(want, UsedBy(want, {}, g))) && DelsLand(want, {}, [], g)
    ensures Ends(want, g) == Kept(want, {}, g) + Missing(want, UsedBy(want, {}, g))
  {
    var used := UsedBy(want, {}, g);
    var missing := Missing(want, used);
    assert want[0..] == want;
    MissingDistinct(want, used, 0);
    AddAllNew(g, missing, p);
    DelsTakeStrays(want, {}, [], g, missing);
    NothingFirst(g, missing);
    NothingFirst(Kept(want, {}, g), missing);
  }

  lemma SettledEndsExact(want: seq<Rule>, g: seq<Rule>, p: nat)
    requires AllAt(want, p) && AllAt(g, p) && DistinctIdentities(want) && Settles(want, g)
    ensures ExactRules(Ends(want, g), want)
  {
    if NoSub(Removals(want, {}, false, g)) {
      ClearEnds(want, g, p);
      KeptAndMissing(want, g);
    } else {
      RebuiltEndsExpected(want, {}, g, AddAll(g, Missing(want, UsedBy(want, {}, g))));
      ExpectedIsExact(want);
    }
  }

  // ---- and only then ----

  /** Some expected rule is nowhere in the list. */
  predicate Lost(want: seq<Rule>, k: seq<Rule>) {
    exists e :: e in want && Absent(k, e)
  }

  predicate Absent(k: seq<Rule>, e: Rule) {
    forall x :: x in k ==> Items(x) != Items(e)
  }

  lemma LostIsNotExact(want: seq<Rule>, k: seq<Rule>)
    requires Lost(want, k)
    ensures !ExactRules(k, want)
  {
  }

  lemma {:induction false} UsedGrows(want: seq<Rule>, used: set<nat>, g: seq<Rule>)
    ensures used <= UsedBy(want, used, g)
    decreases |g|
  {
    if |g| > 0 {
      UsedGrows(want, JudgeExpected(want, used, false, g[0]).used, g[1..]);
    }
  }

  /** Without a rebuild, the place of an expected rule that is found was free and is taken. */
  lemma {:induction false} FoundWasFree(want: seq<Rule>, used: set<nat>, g: seq<Rule>, y: Rule, i: nat, p: nat)
    requires DistinctIdentities(want) && AllAt(want, p) && y in g && i < |want| && Items(y) == Items(want[i])
    requires NoSub(Removals(want, used, false, g))
    ensures i !in used && i in UsedBy(want, used, g)
    decreases |g|
  {
    var m := MatchIndex(want, used, g[0]);
    assert want[i] in want;
    if m < |want| {
      KeepStep(want, used, g);
      UsedGrows(want, used + {m}, g[1..]);
      if y == g[0] {
        SameIndex(want, p, m, i);
      } else {
        FoundWasFree(want, used + {m}, g[1..], y, i, p);
      }
    } else {
      DelStep(want, used, g, g);
      if y == g[0] {
        NoSubUncovered(want, used, g);
      } else {
        FoundWasFree(want, used, g[1..], y, i, p);
      }
    }
  }

  lemma NoSubUncovered(want: seq<Rule>, used: set<nat>, g: seq<Rule>)
    requires |g| > 0 && MatchIndex(want, used, g[0]) == |want| && NoSub(Removals(want, used, false, g))
    ensures !DeleteMayTake(g[0], want)
  {
    var all := Removals(want, used, false, g);
    assert all[0] in all;
  }

  lemma {:induction false} RunKeepsAbsent(want: seq<Rule>, acts: seq<Action>, k: seq<Rule>, e: Rule)
    requires NoSub(acts) && Absent(k, e)
    ensures Absent(RunOne(want, acts, k), e)
  {
    if |acts| > 0 {
      assert acts[0] in acts;
      RunKeepsAbsent(want, acts[1..], DeleteRule(k, acts[0].rule), e);
    }
  }

  /** The rules that stay so far each took one place, no two the same. */
  predicate Placed(want: seq<Rule>, used: set<nat>, pre: seq<Rule>) {
    && (forall x :: x in pre ==> HasPlace(want, used, x))
    && (forall j :: 0 <= j < |pre| ==> Absent(pre[..j] + pre[j + 1..], pre[j]))
  }

  predicate HasPlace(want: seq<Rule>, used: set<nat>, x: Rule) {
    exists i :: i in used && i < |want| && Items(want[i]) == Items(x)
  }

  lemma PlacedNext(want: seq<Rule>, used: set<nat>, pre: seq<Rule>, x: Rule, p: nat)
    requires Placed(want, used, pre) && DistinctIdentities(want) && AllAt(want, p)
    requires MatchIndex(want, used, x) < |want|
    ensures Placed(want, used + {MatchIndex(want, used, x)}, pre + [x])
  {
    hide Items;
    var m := MatchIndex(want, used, x);
    forall y | y in pre
      ensures Items(y) != Items(x) && HasPlace(want, used + {m}, y)
    {
      var i :| i in used && i < |want| && Items(want[i]) == Items(y);
      if Items(y) == Items(x) {
        SameIndex(want, p, i, m);
      }
      assert i in used + {m};
    }
    assert m in used + {m};
    assert HasPlace(want, used + {m}, x);
    forall j | 0 <= j < |pre + [x]|
      ensures Absent((pre + [x])[..j] + (pre + [x])[j + 1..], (pre + [x])[j])
    {
      if j == |pre| {
        assert (pre + [x])[..j] + (pre + [x])[j + 1..] == pre;
      } else {
        assert (pre + [x])[..j] + (pre + [x])[j + 1..] == (pre[..j] + pre[j + 1..]) + [x];
      }
    }
  }

  /** Rules put in after the scan took the places left. */
  predicate FillsRest(want: seq<Rule>, used: set<nat>, tail: seq<Rule>) {
    forall t :: t in tail ==> exists i :: 0 <= i < |want| && i !in used && want[i] == t
  }

  lemma MissingFillsRest(want: seq<Rule>, used: set<nat>)
    ensures FillsRest(want, used, Missing(want, used))
  {
    MissingFrom(want, used, 0);
  }

  lemma {:induction false} MissingFrom(want: seq<Rule>, used: set<nat>, from: nat)
    requires from <= |want|
    ensures FillsRest(want, used, Missing(want, used, from))
    decreases |want| - from
  {
    if from < |want| {
      MissingFrom(want, used, from + 1);
    }
  }

  /** A rule that stays is the only one with its items. */
  lemma OnlyOne(want: seq<Rule>, used: set<nat>, x: Rule, g: seq<Rule>, tail: seq<Rule>, p: nat)
    requires DistinctIdentities(want) && AllAt(want, p) && HasPlace(want, used, x)
    requires NoSub(Removals(want, used, false, g)) && FillsRest(want, UsedBy(want, used, g), tail)
    ensures Absent(g, x) && Absent(tail, x)
  {
    var i :| i in used && i < |want| && Items(want[i]) == Items(x);
    UsedGrows(want, used, g);
    forall y | y in g
      ensures Items(y) != Items(x)
    {
      if Items(y) == Items(x) {
        FoundWasFree(want, used, g, y, i, p);
      }
    }
    forall t | t in tail
      ensures Items(t) != Items(x)
    {
      var l :| 0 <= l < |want| && l !in UsedBy(want, used, g) && want[l] == t;
      if Items(t) == Items(x) {
        SameIndex(want, p, i, l);
      }
    }
  }

  lemma DeleteHit(pre: seq<Rule>, rest: seq<Rule>, a: Rule) returns (j: nat)
    requires !OutOfReach(pre, a)
    ensures j < |pre| && DeleteRule(pre + rest, a) == (pre[..j] + pre[j + 1..]) + rest
  {
    var x :| x in pre && DeleteMatches(a, x);
    var i :| 0 <= i < |pre| && pre[i] == x;
    assert (pre + rest)[i] == x;
    j := FirstMatch(pre + rest, a);
    assert (pre + rest)[..j] == pre[..j];
    assert (pre + rest)[j + 1..] == pre[j + 1..] + rest;
  }

  lemma HitLoses(want: seq<Rule>, used: set<nat>, pre: seq<Rule>, g: seq<Rule>, tail: seq<Rule>, p: nat)
    requires DistinctIdentities(want) && AllAt(want, p) && Placed(want, used, pre) && |g| > 0
    requires NoSub(Removals(want, used, false, g)) && FillsRest(want, UsedBy(want, used, g), tail)
    requires !OutOfReach(pre, g[0])
    ensures Lost(want, DeleteRule(pre + (g + tail), g[0]))
  {
    var j := DeleteHit(pre, g + tail, g[0]);
    var x := pre[j];
    assert x in pre;
    OnlyOne(want, used, x, g, tail, p);
    var i :| i in used && i < |want| && Items(want[i]) == Items(x);
    assert want[i] in want;
    assert Absent((pre[..j] + pre[j + 1..]) + (g + tail), want[i]);
  }

  lemma LostStaysLost(want: seq<Rule>, acts: seq<Action>, k: seq<Rule>)
    requires NoSub(acts) && Lost(want, k)
    ensures Lost(want, RunOne(want, acts, k))
  {
    var e :| e in want && Absent(k, e);
    RunKeepsAbsent(want, acts, k, e);
  }

  /** A delete that finds a rule that stays first costs an expected rule. */
  lemma {:induction false} AstrayLoses(want: seq<Rule>, used: set<nat>, pre: seq<Rule>, g: seq<Rule>, tail: seq<Rule>, p: nat)
    requires DistinctIdentities(want) && AllAt(want, p) && Placed(want, used, pre)
    requires NoSub(Removals(want, used, false, g)) && FillsRest(want, UsedBy(want, used, g), tail)
    requires !DelsLand(want, used, pre, g)
    ensures Lost(want, RunOne(want, Removals(want, used, false, g), pre + g + tail))
    decreases |g|
  {
    ShiftHead(pre, g, tail);
    if MatchIndex(want, used, g[0]) < |want| {
      KeepStep(want, used, g);
      PlacedNext(want, used, pre, g[0], p);
      AstrayLoses(want, JudgeExpected(want, used, false, g[0]).used, pre + [g[0]], g[1..], tail, p);
    } else if OutOfReach(pre, g[0]) {
      DelStep(want, used, g, pre + g + tail);
      DeletePast(pre, g[0], g[1..] + tail);
      AstrayLoses(want, used, pre, g[1..], tail, p);
    } else {
      AstrayHere(want, used, pre, g, tail, p);
    }
  }

  lemma AstrayHere(want: seq<Rule>, used: set<nat>, pre: seq<Rule>, g: seq<Rule>, tail: seq<Rule>, p: nat)
    requires DistinctIdentities(want) && AllAt(want, p) && Placed(want, used, pre) && |g| > 0
    requires NoSub(Removals(want, used, false, g)) && FillsRest(want, UsedBy(want, used, g), tail)
    requires MatchIndex(want, used, g[0]) == |want| && !OutOfReach(pre, g[0])
    ensures Lost(want, RunOne(want, Removals(want, used, false, g), pre + g + tail))
  {
    ShiftHead(pre, g, tail);
    HitLoses(want, used, pre, g, tail, p);
    DelStep(want, used, g, pre + g + tail);
    LostStaysLost(want, Removals(want, used, false, g[1..]), DeleteRule(pre + g + tail, g[0]));
  }

  /** A missing rule that is refused is nowhere once the others are in. */
  lemma RefusedAbsent(want: seq<Rule>, g: seq<Rule>, p: nat) returns (m: Rule)
    requires DistinctIdentities(want) && AllAt(want, p) && AllAt(g, p)
    requires NoSub(Removals(want, {}, false, g)) && !NoneThere(g, Missing(want, UsedBy(want, {}, g)))
    ensures m in want && Absent(AddAll(g, Missing(want, UsedBy(want, {}, g))), m)
  {
    var used := UsedBy(want, {}, g);
    var missing := Missing(want, used);
    m :| m in missing && Duplicate(g, m);
    MissingFillsRest(want, used);
    var l :| 0 <= l < |want| && l !in used && want[l] == m;
    forall y | y in g
      ensures Items(y) != Items(m)
    {
      if Items(y) == Items(m) {
        FoundWasFree(want, {}, g, y, l, p);
      }
    }
    assert want[0..] == want;
    MissingDistinct(want, used, 0);
    RefusedStays(g, missing, m);
  }

  lemma RefusedLoses(want: seq<Rule>, g: seq<Rule>, p: nat)
    requires DistinctIdentities(want) && AllAt(want, p) && AllAt(g, p)
    requires NoSub(Removals(want, {}, false, g)) && !NoneThere(g, Missing(want, UsedBy(want, {}, g)))
    ensures Lost(want, Ends(want, g))
  {
    var m := RefusedAbsent(want, g, p);
    RunKeepsAbsent(want, Removals(want, {}, false, g), AddAll(g, Missing(want, UsedBy(want, {}, g))), m);
  }

  /** Adding rules does not bring in one that is there but for inversion. */
  lemma {:induction false} RefusedStays(g: seq<Rule>, rs: seq<Rule>, m: Rule)
    requires Duplicate(g, m) && Absent(g, m) && AllAt(rs, m.priority)
    ensures Absent(AddAll(g, rs), m)
    decreases |rs|
  {
    if |rs| > 0 {
      InsertMembers(g, rs[0]);
      var g' := AddRule(g, rs[0]);
      assert rs[0] in rs;
      var x :| x in g && Identity(x) == Identity(m);
      assert x in g';
      RefusedStays(g', rs[1..], m);
    }
  }

  /** The priority ends with exactly the expected rules if and only if it settles. */
  lemma EndsExactIff(want: seq<Rule>, g: seq<Rule>, p: nat)
    requires AllAt(want, p) && AllAt(g, p) && DistinctIdentities(want)
    ensures ExactRules(Ends(want, g), want) <==> Settles(want, g)
  {
    if Settles(want, g) {
      SettledEndsExact(want, g, p);
    } else if !NoneThere(g, Missing(want, UsedBy(want, {}, g))) {
      RefusedLoses(want, g, p);
      LostIsNotExact(want, Ends(want, g));
    } else {
      AstrayEnds(want, g, p);
      LostIsNotExact(want, Ends(want, g));
    }
  }

  lemma AstrayEnds(want: seq<Rule>, g: seq<Rule>, p: nat)
    requires AllAt(want, p) && AllAt(g, p) && DistinctIdentities(want)
    requires NoSub(Removals(want, {}, false, g)) && NoneThere(g, Missing(want, UsedBy(want, {}, g)))
    requires !DelsLand(want, {}, [], g)
    ensures Lost(want, Ends(want, g))
  {
    var used := UsedBy(want, {}, g);
    var missing := Missing(want, used);
    assert want[0..] == want;
    MissingDistinct(want, used, 0);
    AddAllNew(g, missing, p);
    MissingFillsRest(want, used);
    AstrayLoses(want, {}, [], g, missing, p);
    NothingFirst(g, missing);
  }

  lemma PlainTwinTakes(x: Rule, m: Rule)
    requires Standard(m) && Plain(x) && Identity(x) == Identity(m)
    ensures DeleteMatches(x, m)
  {
    NoUnknown(x);
  }

  lemma {:induction false} StrayUncovered(want: seq<Rule>, used: set<nat>, g: seq<Rule>, y: Rule)
    requires y in g && !IsExpected(y, want) && NoSub(Removals(want, used, false, g))
    ensures !DeleteMayTake(y, want)
    decreases |g|
  {
    if MatchIndex(want, used, g[0]) < |want| {
      KeepStep(want, used, g);
      StrayUncovered(want, JudgeExpected(want, used, false, g[0]).used, g[1..], y);
    } else {
      NoSubUncovered(want, used, g);
      DelStep(want, used, g, g);
      if y != g[0] {
        StrayUncovered(want, used, g[1..], y);
      }
    }
  }

  predicate PlainTwins(want: seq<Rule>, g: seq<Rule>) {
    forall x :: x in g && Duplicate(want, x) ==> Plain(x)
  }

  lemma ExpectedAreTwins(want: seq<Rule>, g: seq<Rule>, p: nat)
    requires AllAt(want, p) && AllAt(g, p) && PlainTwins(want, g)
    ensures PlainLookalikes(want, g)
  {
    forall x | x in g && IsExpected(x, want)
      ensures Plain(x)
    {
      var e :| e in want && Items(x) == Items(e);
      assert Identity(x) == Identity(e);
      assert Duplicate(want, x);
    }
  }

  lemma PlainNoneRefused(want: seq<Rule>, g: seq<Rule>, p: nat)
    requires AllStandard(want) && AllAt(want, p) && DistinctIdentities(want)
    requires PlainTwins(want, g) && NoSub(Removals(want, {}, false, g))
    ensures NoneThere(g, Missing(want, UsedBy(want, {}, g)))
  {
    var used := UsedBy(want, {}, g);
    MissingFillsRest(want, used);
    forall m | m in Missing(want, used)
      ensures !Duplicate(g, m)
    {
      var l :| 0 <= l < |want| && l !in used && want[l] == m;
      if Duplicate(g, m) {
        var x :| x in g && Identity(x) == Identity(m);
        assert m in want && Duplicate(want, x);
        PlainTwinTakes(x, m);
        if IsExpected(x, want) {
          var k :| 0 <= k < |want| && Items(x) == Items(want[k]);
          assert want[k] in want;
          SameIdentityIndex(want, k, l);
          FoundWasFree(want, {}, g, x, k, p);
        } else {
          StrayUncovered(want, {}, g, x);
        }
      }
    }
  }

  /** Rules found in plain form, wherever they are an expected rule but for inversion, settle. */
  lemma PlainSettles(want: seq<Rule>, g: seq<Rule>, p: nat)
    requires AllStandard(want) && AllAt(want, p) && AllAt(g, p) && DistinctIdentities(want)
    requires PlainTwins(want, g)
    ensures Settles(want, g)
  {
    if NoSub(Removals(want, {}, false, g)) {
      ExpectedAreTwins(want, g, p);
      PlainDelsLand(want, {}, [], g, p);
      PlainNoneRefused(want, g, p);
    }
  }

  /** A family where the condition fails: any expected rule reported out of plain form, with a
      stray after it that differs by one flag, ends without the expected rule. */
  lemma OutOfFormLoses(e: Rule, x: Rule)
    requires Standard(e) && Items(x) == Items(e) && x.priority == e.priority && !Plain(x)
    ensures !ExactRules(Ends([e], [x, Stray(x)]), [e])
  {
    var want, g := [e], [x, Stray(x)];
    StrayTakes(want, e, x);
    assert MatchIndex(want, {}, x) == 0;
    assert want[0] == e && JudgeExpected(want, {}, false, x).used == {0};
    assert g[1..] == [Stray(x)];
    StrayIsDeleted(want, x);
    assert Removals(want, {}, false, g) == Removals(want, {0}, false, [Stray(x)]);
    assert !OutOfReach([x], Stray(x)) by { assert x in [x]; }
    assert [] + [x] == [x];
    assert !DelsLand(want, {0}, [x], [Stray(x)]);
    assert !DelsLand(want, {}, [], g);
    EndsExactIff(want, g, e.priority);
  }

  lemma {:induction false} StrayIsDeleted(want: seq<Rule>, x: Rule)
    requires |want| == 1 && Items(x) == Items(want[0]) && Items(x).extraFlags.None?
    requires !DeleteMayTake(Stray(x), want)
    ensures MatchIndex(want, {0}, Stray(x)) == 1 && NoSub(Removals(want, {0}, false, [Stray(x)]))
  {
    var v := JudgeExpected(want, {0}, false, Stray(x));
    assert v == Found({0}, false, [Action(Del, x.priority, Stray(x))]);
    assert [Stray(x)][1..] == [];
    assert Removals(want, {0}, false, [Stray(x)]) == v.removals + [];
  }

  /** A rule found with exactly an expected rule's items takes its place or finds it taken. */
  lemma {:induction false} FoundIsUsed(want: seq<Rule>, used: set<nat>, g: seq<Rule>, y: Rule, i: nat, p: nat)
    requires DistinctIdentities(want) && AllAt(want, p) && y in g && i < |want| && Items(y) == Items(want[i])
    ensures i in UsedBy(want, used, g)
    decreases |g|
  {
    var u := JudgeExpected(want, used, false, g[0]).used;
    if y == g[0] {
      var m := MatchIndex(want, used, y);
      if m < |want| {
        SameIndex(want, p, m, i);
      }
      UsedGrows(want, u, g[1..]);
    } else {
      FoundIsUsed(want, u, g[1..], y, i, p);
    }
  }

  /** No rule found is an expected one but for inversion. */
  predicate NoTwins(want: seq<Rule>, g: seq<Rule>) {
    forall x :: x in g && Duplicate(want, x) ==> IsExpected(x, want)
  }

  lemma NoTwinsNoneRefused(want: seq<Rule>, g: seq<Rule>, p: nat)
    requires AllAt(want, p) && DistinctIdentities(want) && NoTwins(want, g)
    ensures NoneThere(g, Missing(want, UsedBy(want, {}, g)))
  {
    var used := UsedBy(want, {}, g);
    MissingFillsRest(want, used);
    forall m | m in Missing(want, used)
      ensures !Duplicate(g, m)
    {
      var l :| 0 <= l < |want| && l !in used && want[l] == m;
      if Duplicate(g, m) {
        var x :| x in g && Identity(x) == Identity(m);
        assert m in want && Duplicate(want, x);
        var k :| 0 <= k < |want| && Items(x) == Items(want[k]);
        assert want[k] in want;
        SameIdentityIndex(want, k, l);
        FoundIsUsed(want, {}, g, x, k, p);
      }
    }
  }

  lemma ExpectedIsExact(want: seq<Rule>)
    ensures ExactRules(want, want)
  {
    hide Items;
  }

  /** After the additions alone, every expected rule is there. */
  lemma AdditionsComplete(want: seq<Rule>, g: seq<Rule>, e: Rule)
    requires e in want
    ensures exists x :: x in g + Missing(want, UsedBy(want, {}, g)) && Items(x) == Items(e)
  {
    ExpectedPresent(want, g, e);
    var kept, missing := Kept(want, {}, g), Missing(want, UsedBy(want, {}, g));
    var x :| x in kept + missing && Items(x) == Items(e);
    if x in kept {
      KeptAreExpected(want, {}, g, x);
    }
    assert x in g + missing;
  }
}
