/**
The expected return-path addresses over the owner's operations: an address change and a
retirement take an address out only after a look that showed it gone, and no native plan
deletes the pair of an address live on the tunnel.
*/
module ReturnPath {
  import opened Rtnl
  import opened Contract
  import opened Comparison
  import opened OnePriority
  import opened Copies
  import opened Pass

  const SETTLE_LOOKS := 3

  function Dedupe(addrs: seq<Addr>): seq<Addr> {
    Joined([], addrs)
  }

  function OneOf(a: Opt<Addr>): seq<Addr> {
    if a.Some? then [a.v] else []
  }

  function WithReturnPath(s: Spec, f: Family, addrs: seq<Addr>): Spec {
    s.(leave := s.leave.With(f, false), returnPath := s.returnPath.With(f, addrs))
  }

  function Without1(addrs: seq<Addr>, a: Addr): (r: seq<Addr>)
    ensures forall x :: x in r <==> x in addrs && x != a
  {
    if |addrs| == 0 then [] else (if addrs[0] == a then [] else [addrs[0]]) + Without1(addrs[1..], a)
  }

  datatype Outcome = Outcome(completed: bool, seen: Opt<Snap>)

  class Transactions {
    const owner: Owner
    /** The exit left rules 94 and 98 to their owner from the start. */
    const leftAtStart: Pair<bool>

    constructor (owner: Owner, leftAtStart: Pair<bool>)
      ensures this.owner == owner && this.leftAtStart == leftAtStart
    {
      this.owner, this.leftAtStart := owner, leftAtStart;
    }

    /** Looks until the kernel holds still, a few times. */
    method StableLook() returns (snap: Opt<Snap>)
      requires RemovesOnStable(owner.log)
      modifies owner`log
      ensures RemovesOnStable(owner.log)
      ensures snap.Some? ==> !snap.v.unstable
    {
      for i := 0 to SETTLE_LOOKS
        invariant RemovesOnStable(owner.log)
      {
        snap := owner.Look();
        if snap.None? || !snap.v.unstable {
          return;
        }
      }
      snap := None;
    }

    /** Which pairs survive a change, decided from a stable look: the live addresses, and the new
        address or, after a failure, everything that was protected before. */
    method Settle(before: Spec, f: Family, was: Opt<Addr>, next: Addr, failed: bool) returns (out: Outcome)
      requires RemovesOnStable(owner.log) && Distinct(before.returnPath.At(f))
      requires forall g :: g != f ==> owner.spec.returnPath.At(g) == before.returnPath.At(g)
      requires owner.spec.returnPath.At(f) == Dedupe(before.returnPath.At(f) + OneOf(was) + [next])
      modifies owner`spec, owner`log
      ensures RemovesOnStable(owner.log) && (out.seen.Some? ==> !out.seen.v.unstable)
      ensures Distinct(owner.spec.returnPath.At(f))
      ensures forall g :: g != f ==> owner.spec.returnPath.At(g) == before.returnPath.At(g)
      ensures out.seen.None? ==> owner.spec.returnPath.At(f) == old(owner.spec).returnPath.At(f)
      ensures forall a :: a in before.returnPath.At(f) && a !in owner.spec.returnPath.At(f) ==>
                !failed && out.seen.Some? && a !in out.seen.v.addrs.At(f)
      ensures out.seen.Some? ==> forall a :: a in out.seen.v.addrs.At(f) && a !in owner.spec.returnPath.At(f) ==>
                failed && was == Some(a) && a !in before.returnPath.At(f)
      ensures out.seen.Some? && !failed ==> next in owner.spec.returnPath.At(f)
    {
      JoinedHas([], before.returnPath.At(f) + OneOf(was) + [next]);
      var look := StableLook();
      if look.None? {
        return Outcome(false, None);
      }
      var keep := Dedupe(look.v.addrs.At(f) + if failed then before.returnPath.At(f) + OneOf(was) else [next]);
      JoinedHas([], look.v.addrs.At(f) + if failed then before.returnPath.At(f) + OneOf(was) else [next]);
      owner.spec := WithReturnPath(owner.spec, f, keep);
      var res := owner.Reconcile();
      if !res.holds {
        return Outcome(false, look);
      }
      if failed && forall a :: a in keep ==> a in before.returnPath.At(f) || was == Some(a) {
        owner.spec := before;
      }
      out := Outcome(true, look);
    }

    /** Both pairs expected and confirmed, then the caller's own change of the address, then the
        routing confirmed again; whether any of it failed. */
    method Attempt(before: Spec, f: Family, was: Opt<Addr>, next: Addr) returns (failed: bool)
      requires RemovesOnStable(owner.log)
      modifies owner`spec, owner`log
      ensures RemovesOnStable(owner.log)
      ensures owner.spec.returnPath == before.returnPath.With(f, Dedupe(before.returnPath.At(f) + OneOf(was) + [next]))
    {
      owner.spec := WithReturnPath(before, f, Dedupe(before.returnPath.At(f) + OneOf(was) + [next]));
      var res := owner.Reconcile();
      failed := !res.holds;
      if !failed {
        failed := *;
      }
      if !failed {
        res := owner.Reconcile();
        failed := !res.holds;
      }
    }

    /** An address change: the new pair goes in with everything protected so far, then the
        address is changed by the caller's steps, then the pairs are settled. */
    method Change(f: Family, was: Opt<Addr>, next: Addr) returns (rec: Step)
      requires RemovesOnStable(owner.log) && Distinct(owner.spec.returnPath.At(f))
      modifies owner`spec, owner`log
      ensures RemovesOnStable(owner.log) && Distinct(owner.spec.returnPath.At(f))
      ensures rec.before == old(owner.spec).returnPath && rec.after == owner.spec.returnPath && rec.f == f
      ensures Justified(rec)
      ensures rec.kind == Untouched <==> old(owner.spec).config.IsGluetun() || next.family != f || (was.Some? && was.v.family != f)
      ensures rec.kind == Untouched ==> owner.spec == old(owner.spec) && owner.log == old(owner.log)
      ensures rec.kind == Changed && rec.seen.Some? ==> next in owner.spec.returnPath.At(f)
      ensures rec.kind != Untouched && rec.seen.Some? ==>
                forall a :: a in rec.seen.v.addrs.At(f) && a !in owner.spec.returnPath.At(f) ==>
                  rec.kind == ChangeFailed && was == Some(a) && a !in old(owner.spec).returnPath.At(f)
    {
      var before := owner.spec;
      if before.config.IsGluetun() || next.family != f || (was.Some? && was.v.family != f) {
        return Step(f, before.returnPath, before.returnPath, Untouched, None);
      }
      var failed := Attempt(before, f, was, next);
      var out := Settle(before, f, was, next, failed);
      rec := Step(f, before.returnPath, owner.spec.returnPath, if failed then ChangeFailed else Changed, out.seen);
    }

    /** Takes an address that is live nowhere out of the expected set, with its pair: exactly if a
        stable look shows it on no interface, it is expected or half its pair is there, and the
        pair that is there could be deleted. */
    method Retire(f: Family, a: Addr) returns (rec: Step, ghost gone: bool)
      requires RemovesOnStable(owner.log) && Distinct(owner.spec.returnPath.At(f))
      modifies owner`spec, owner`log
      ensures RemovesOnStable(owner.log)
      ensures rec.before == old(owner.spec).returnPath && rec.after == owner.spec.returnPath && rec.f == f
      ensures Justified(rec)
      ensures var present := rec.seen.Some? && HasPair(WithReturnPath(old(owner.spec), f, [a]), f, rec.seen.v.rules.At(f));
              rec.kind == Retired <==>
              && !old(owner.spec).config.IsGluetun() && a.family == f && rec.seen.Some? && a !in rec.seen.v.everywhere.At(f)
              && (present || a in rec.before.At(f)) && (present ==> gone)
      ensures rec.kind == Retired ==> a !in owner.spec.returnPath.At(f) && rec.after.At(f) == Without1(rec.before.At(f), a)
      ensures rec.kind != Retired ==> rec.kind == Untouched && owner.spec == old(owner.spec)
      ensures forall x :: x in rec.before.At(f) && x != a ==> x in rec.after.At(f)
    {
      hide RemovesOnStable, HasPair, Concluded;
      var spec := owner.spec;
      rec, gone := Step(f, spec.returnPath, spec.returnPath, Untouched, None), false;
      if spec.config.IsGluetun() || a.family != f {
        return;
      }
      var look := StableLook();
      rec := rec.(seen := look);
      if look.None? || a in look.v.everywhere.At(f) {
        return;
      }
      var probe := WithReturnPath(spec, f, [a]);
      var present := HasPair(probe, f, look.v.rules.At(f));
      if a !in spec.returnPath.At(f) && !present {
        return;
      }
      if present {
        var deleted: bool := *;
        gone := deleted;
        if !deleted {
          return;
        }
      }
      var rest := Without1(spec.returnPath.At(f), a);
      var next := WithReturnPath(spec, f, rest);
      if |rest| == 0 && leftAtStart.At(f) {
        next := next.(leave := next.leave.With(f, true));
      }
      owner.spec := next;
      var res := owner.Reconcile();
      rec := Step(f, spec.returnPath, owner.spec.returnPath, Retired, look);
    }
  }

  /** Half of the pair the contract writes for its address is in the rules. */
  predicate HasPair(s: Spec, f: Family, rules: seq<Rule>) {
    || (exists w :: w in RulesAt(s, f, RETURN_PATH) && HasExact(rules, w))
    || (exists w :: w in RulesAt(s, f, BACKSTOP) && HasExact(rules, w))
  }

  // ---- runs of operations ----

  datatype StepKind = Untouched | Changed | ChangeFailed | Retired

  /** What one operation did to the expected addresses of a family, and the look it decided on. */
  datatype Step = Step(f: Family, before: Pair<seq<Addr>>, after: Pair<seq<Addr>>, kind: StepKind, seen: Opt<Snap>)

  /** The look shows the address gone: from the tunnel for a completed change, from every
      interface for a retirement. */
  predicate ShowsGone(st: Step, a: Addr) {
    && st.seen.Some? && !st.seen.v.unstable
    && ((st.kind == Changed && a !in st.seen.v.addrs.At(st.f)) || (st.kind == Retired && a !in st.seen.v.everywhere.At(st.f)))
  }

  /** An address left only from the operation's family, and only on such a look. */
  predicate Justified(st: Step) {
    && (forall g :: g != st.f ==> st.after.At(g) == st.before.At(g))
    && (forall a :: a in st.before.At(st.f) && a !in st.after.At(st.f) ==> ShowsGone(st, a))
  }

  predicate Chained(steps: seq<Step>) {
    forall i :: 0 < i < |steps| ==> steps[i].before == steps[i - 1].after
  }

  /** Over any run, an address that has left was shown gone by the operation it left in. */
  lemma {:induction false} LeavesOnlySeen(steps: seq<Step>, g: Family, a: Addr) returns (i: nat)
    requires |steps| > 0 && Chained(steps) && (forall st :: st in steps ==> Justified(st))
    requires a in steps[0].before.At(g) && a !in steps[|steps| - 1].after.At(g)
    ensures i < |steps| && steps[i].f == g && ShowsGone(steps[i], a)
    ensures a in steps[i].before.At(g) && a !in steps[i].after.At(g)
  {
    assert steps[0] in steps;
    if a !in steps[0].after.At(g) {
      i := 0;
    } else {
      assert steps[1].before == steps[0].after;
      var rest := steps[1..];
      forall j | 0 < j < |rest|
        ensures rest[j].before == rest[j - 1].after
      {
        assert steps[j + 1].before == steps[j].after;
      }
      assert rest[|rest| - 1] == steps[|steps| - 1];
      i := LeavesOnlySeen(rest, g, a);
      i := i + 1;
    }
  }

  // ---- plans ----

  /** Why a rule is deleted by itself. */
  predicate GoodReason(s: Spec, f: Family, x: Rule) {
    if !s.Owned(x.priority) then LeftoverCopy(s, f, x)
    else if s.Skipped(f, x.priority) then !ReturnPathShaped(s, f, x)
    else !DeleteMayTake(x, RulesAt(s, f, x.priority))
  }

  lemma FindingReason(s: Spec, f: Family, all: seq<Rule>, used: set<nat>, subbed: bool, a: Rule, act: Action)
    requires act in Finding(s, f, all, used, subbed, a).removals && act.kind.Del?
    ensures act.rule == a && GoodReason(s, f, a)
  {
  }

  lemma {:induction false} ScanReason(s: Spec, f: Family, all: seq<Rule>, st: DiffState, rest: seq<Rule>, act: Action)
    requires act in Scan(s, f, all, st, rest).removals && act.kind.Del?
    ensures act in st.removals || (act.rule in rest && GoodReason(s, f, act.rule))
    decreases |rest|
  {
    if |rest| > 0 {
      var a := rest[0];
      var used, subbed := st.UsedAt(a.priority), a.priority in st.subbed;
      ScanReason(s, f, all, Judge(s, f, all, st, a), rest[1..], act);
      if act in Finding(s, f, all, used, subbed, a).removals {
        FindingReason(s, f, all, used, subbed, a, act);
      }
    }
  }

  lemma {:induction false} PairInSlots(c: Config, addrs: seq<Addr>, a: Addr, slot: Slot)
    requires a in addrs && slot in PairSlots(c, a)
    ensures slot in AllPairs(c, addrs)
  {
    if a != addrs[0] {
      PairInSlots(c, addrs[1..], a, slot);
    }
  }

  /** The pair of an expected address is expected. */
  lemma PairExpected(s: Spec, f: Family, a: Addr, slot: Slot)
    requires !s.config.IsGluetun() && !s.leave.At(f) && a in s.returnPath.At(f) && slot in PairSlots(s.config, a)
    ensures RuleOf(s.config, f, slot) in RulesAt(s, f, PriorityOf(slot))
  {
    var e := RuleOf(s.config, f, slot);
    PairInSlots(s.config, s.returnPath.At(f), a, slot);
    assert slot in Slots(s, f);
    var i :| 0 <= i < |Slots(s, f)| && Slots(s, f)[i] == slot;
    assert Written(s, f)[i] == e;
    AtMembers(Written(s, f), e);
    RulesAtWritten(s, f, PriorityOf(slot));
    RuleAtPriority(s.config, f, slot);
  }

  lemma HostSource(x: Prefix, a: Addr)
    requires x.Masked() == HostPrefix(a)
    ensures x == HostPrefix(a)
  {
    FloorOne(x.addr.n);
  }

  /** A rule that is exactly half of an address's pair is return-path shaped. */
  lemma PairIsShaped(s: Spec, f: Family, a: Addr, slot: Slot, x: Rule)
    requires slot in PairSlots(s.config, a) && a.family == f && x.family == f
    requires x.priority == PriorityOf(slot) && Items(x) == Items(RuleOf(s.config, f, slot))
    ensures ReturnPathShaped(s, f, x)
  {
    HostIsMasked(a);
    HostSource(x.src.v, a);
    var pair := ReturnPathPair(s.config, f, a);
    var i :| 0 <= i < |PairSlots(s.config, a)| && PairSlots(s.config, a)[i] == slot;
    assert pair[i] in pair;
    RuleAtPriority(s.config, f, slot);
  }

  lemma PlanReason(s: Spec, f: Family, rules: seq<Rule>, act: Action)
    requires act in Diff(s, f, rules, false) && act.kind.Del?
    ensures GoodReason(s, f, act.rule)
  {
    var st := Scan(s, f, rules, START, rules);
    AdditionsAreAdds(s, f, st, AddOrder(s.config));
    LeftAreAdds(rules, BACKSTOP, LeftReturnPath(s, f, rules, BACKSTOP));
    LeftAreAdds(rules, RETURN_PATH, LeftReturnPath(s, f, rules, RETURN_PATH));
    ScanReason(s, f, rules, START, rules, act);
  }

  lemma PairHasNoReason(s: Spec, f: Family, a: Addr, slot: Slot, x: Rule)
    requires !s.config.IsGluetun() && (s.leave.At(f) || a in s.returnPath.At(f)) && a.family == f
    requires slot in PairSlots(s.config, a) && x.family == f
    requires x.priority == PriorityOf(slot) && Items(x) == Items(RuleOf(s.config, f, slot))
    ensures !GoodReason(s, f, x)
  {
    hide RulesAt, ReturnPathShaped, LeftoverCopy, Items, SubsetOf, DeleteMatches, RuleOf;
    PairIsShaped(s, f, a, slot, x);
    if !s.leave.At(f) {
      PairExpected(s, f, a, slot);
      SubsetOfSelf(Items(x));
    }
  }

  lemma SubsetOfSelf(x: Shape)
    ensures SubsetOf(x, x)
  {
  }

  /** No native plan deletes a rule that is exactly half of the pair of an address live on the
      tunnel. */
  lemma LivePairStays(s: Spec, snap: Snap, f: Family, a: Addr, slot: Slot, x: Rule, act: Action)
    requires !s.config.IsGluetun() && a in snap.addrs.At(f) && a.family == f && slot in PairSlots(s.config, a)
    requires x.family == f && x.priority == PriorityOf(slot) && Items(x) == Items(RuleOf(s.config, f, slot))
    requires act in PlanFamily(s, snap, f).rules && act.kind.Del?
    ensures act.rule != x
  {
    hide Diff, GoodReason, Items, RuleOf, ExitTableActions, Joined;
    var eff := Effective(s, snap, f);
    JoinedHas(s.returnPath.At(f), snap.addrs.At(f));
    PlanReason(eff, f, snap.rules.At(f), act);
    PairHasNoReason(eff, f, a, slot, x);
  }
}
