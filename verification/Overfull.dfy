/**
A rebuild of a priority that holds any number of rules: it clears the first 32, what stands behind
them stays, and exactly when that does no harm.
*/
module Overfull {
  import opened Rtnl
  import opened Contract
  import opened OnePriority
  import opened Copies
  import opened Repair
  import opened Converge
  import opened ConvergeIff
  import opened Judges

  /** The rules a rebuild does not come to. */
  function Uncleared(g: seq<Rule>): seq<Rule> {
    g[if |g| < MAX_CLEAR then |g| else MAX_CLEAR..]
  }

  lemma {:induction false} ClearTakes(k: seq<Rule>, p: nat, n: nat)
    ensures var g := At(k, p); At(Clear(k, p, n), p) == g[if |g| < n then |g| else n..]
    decreases n
  {
    hide At, DeletePriority;
    if n > 0 {
      DeletePriorityAt(k, p, p);
      ClearTakes(DeletePriority(k, p), p, n - 1);
    }
  }

  lemma RefilledHere(k: seq<Rule>, p: nat, want: seq<Rule>)
    requires SortedByPriority(k) && p > 0 && AllAt(want, p)
    ensures At(Refilled(k, p, want), p) == AddAll(Uncleared(At(k, p)), want)
  {
    hide At, SortedByPriority, Clear;
    var copies := CopiesOf(want);
    CopiesStand(want, p);
    var k1 := AddAll(k, copies);
    AddAllSorted(k, copies);
    AddAllElsewhere(k, copies, p);
    ClearTakes(k1, p, MAX_CLEAR);
    ClearSorted(k1, p, MAX_CLEAR);
    AddAllProjects(Clear(k1, p, MAX_CLEAR), want, p);
    AllAtIs(want, p);
  }

  lemma {:induction false} AllAtIs(g: seq<Rule>, p: nat)
    requires AllAt(g, p)
    ensures At(g, p) == g
  {
    if |g| > 0 {
      assert g[0] in g;
      AllAtIs(g[1..], p);
    }
  }

  /** Once its copies are in force a rebuild leaves what it did not clear and the wanted rules
      behind it, those refused left out. */
  lemma RebuildLeaves(k: seq<Rule>, p: nat, want: seq<Rule>)
    requires SortedByPriority(k) && p > 0 && want != [] && AllAt(want, p)
    requires Confirmed(AddAll(k, CopiesOf(want)), CopiesOf(want))
    ensures At(Rebuild(k, p, want), p) == AddAll(Uncleared(At(k, p)), want)
  {
    hide At, SortedByPriority, AddAll, Clear, Confirmed, CopiesOf, Installed, DeleteAll;
    RefilledHere(k, p, want);
    CopiesStand(want, p);
    var new1 := Installed(k, CopiesOf(want));
    forall c | c in new1
      ensures c.priority == p - 1
    {
      InstalledIn(k, CopiesOf(want), c);
    }
    DeleteAllOut(Refilled(k, p, want), new1, p - 1, p);
  }

  // ---- when that is right ----

  ghost predicate Expected(g: seq<Rule>, want: seq<Rule>) {
    NoRepeat(g) && forall x :: x in g ==> HasExact(want, x)
  }

  lemma {:induction false} RepeatSnoc(g: seq<Rule>, r: Rule)
    ensures NoRepeat(g + [r]) <==> NoRepeat(g) && forall x :: x in g ==> x.priority != r.priority || Items(x) != Items(r)
  {
    hide Items;
    if |g| == 0 {
      assert g + [r] == [r] && [r][1..] == [];
    } else {
      assert (g + [r])[1..] == g[1..] + [r] && (g + [r])[0] == g[0];
      RepeatSnoc(g[1..], r);
      assert forall x :: x in g <==> x == g[0] || x in g[1..];
      assert forall x :: x in g[1..] + [r] <==> x in g[1..] || x == r;
    }
  }

  /** Adding an expected rule keeps the rules expected and brings it in. */
  lemma AddExpected(g: seq<Rule>, want: seq<Rule>, w: Rule, p: nat)
    requires DistinctIdentities(want) && AllAt(want, p) && AllAt(g, p) && Expected(g, want) && w in want
    ensures var g' := AddRule(g, w); Expected(g', want) && AllAt(g', p) && HasExact(g', w) && g <= g'
  {
    hide Items, NoRepeat, DistinctIdentities;
    if Duplicate(g, w) {
      var x :| x in g && Identity(x) == Identity(w);
      var e :| e in want && e.priority == x.priority && Items(e) == Items(x);
      var i :| 0 <= i < |want| && want[i] == e;
      var j :| 0 <= j < |want| && want[j] == w;
      SameIdentityIndex(want, i, j);
      assert HasExact(g, w);
    } else {
      assert w.priority == p;
      InsertLast(g, w);
      RepeatSnoc(g, w);
      assert w in g + [w];
    }
  }

  lemma {:induction false} AddAllExpected(g: seq<Rule>, want: seq<Rule>, rs: seq<Rule>, p: nat)
    requires DistinctIdentities(want) && AllAt(want, p) && AllAt(g, p) && Expected(g, want) && forall r :: r in rs ==> r in want
    ensures var end := AddAll(g, rs); Expected(end, want) && g <= end && forall r :: r in rs ==> HasExact(end, r)
    decreases |rs|
  {
    hide Items, Expected, DistinctIdentities, AddRule;
    if |rs| > 0 {
      assert rs[0] in rs;
      AddExpected(g, want, rs[0], p);
      AddAllExpected(AddRule(g, rs[0]), want, rs[1..], p);
      StillThere(AddRule(g, rs[0]), AddAll(g, rs), rs[0]);
    }
  }

  lemma StillThere(g: seq<Rule>, end: seq<Rule>, r: Rule)
    requires g <= end && HasExact(g, r)
    ensures HasExact(end, r)
  {
    hide Items;
    var x :| x in g && x.priority == r.priority && Items(x) == Items(r);
    var i :| 0 <= i < |g| && g[i] == x;
    assert end[i] == x;
  }

  lemma {:induction false} AddAllBehind(g: seq<Rule>, rs: seq<Rule>, p: nat)
    requires AllAt(g, p) && AllAt(rs, p)
    ensures g <= AddAll(g, rs)
    decreases |rs|
  {
    if |rs| > 0 {
      assert rs[0] in rs;
      if !Duplicate(g, rs[0]) {
        InsertLast(g, rs[0]);
      }
      AddAllBehind(AddRule(g, rs[0]), rs[1..], p);
    }
  }

  lemma {:induction false} PrefixExpected(g: seq<Rule>, end: seq<Rule>, want: seq<Rule>)
    requires g <= end && Expected(end, want)
    ensures Expected(g, want)
    decreases |end|
  {
    hide Items, HasExact;
    if |g| < |end| {
      var init := end[..|end| - 1];
      assert end == init + [end[|end| - 1]];
      RepeatSnoc(init, end[|end| - 1]);
      PrefixExpected(g, init, want);
    } else {
      assert g == end;
    }
  }

  lemma RefillIff(rest: seq<Rule>, want: seq<Rule>, p: nat)
    requires DistinctIdentities(want) && AllAt(want, p) && AllAt(rest, p)
    ensures Holds(AddAll(rest, want), want) <==> Expected(rest, want)
  {
    hide Items, NoRepeat, HasExact, DistinctIdentities, AddAll;
    if Expected(rest, want) {
      AddAllExpected(rest, want, want, p);
    }
    if Holds(AddAll(rest, want), want) {
      AddAllBehind(rest, want, p);
      PrefixExpected(rest, AddAll(rest, want), want);
    }
  }

  /** However many rules a priority holds: a rebuild whose copies are in force leaves it with each
      expected rule once and nothing else if and only if the rules after the 32nd are expected
      ones, none of them twice. */
  lemma RebuildIff(k: seq<Rule>, p: nat, want: seq<Rule>)
    requires SortedByPriority(k) && p > 0 && want != [] && AllAt(want, p) && DistinctIdentities(want)
    requires Confirmed(AddAll(k, CopiesOf(want)), CopiesOf(want))
    ensures Holds(At(Rebuild(k, p, want), p), want) <==> Expected(Uncleared(At(k, p)), want)
  {
    hide At, Rebuild, Holds, Expected, SortedByPriority, DistinctIdentities, Confirmed;
    RebuildLeaves(k, p, want);
    assert AllAt(Uncleared(At(k, p)), p);
    RefillIff(Uncleared(At(k, p)), want, p);
  }
}
