/**
The order additions go in. Nothing falls through while they do: the rule that stops what falls from
a lookup is added before the lookup; and the kill switch comes after its exceptions, or not at all
while it is held back.
*/
module Ordering {
  import opened Rtnl
  import opened Contract
  import opened Comparison
  import opened OnePriority
  import opened Identities
  import opened Converge
  import opened Policy

  // ---- what falls to what ----

  /** A packet the lookup applies to can fall to the reject: no reject between them stops it for certain. */
  ghost predicate FallsTo(s: Spec, f: Family, l: Rule, r: Rule) {
    && l.action == ACT_TO_TABLE && r.action == ACT_UNREACHABLE && l.priority < r.priority
    && exists p :: Falling(s, f, l, r, p)
  }

  ghost predicate Falling(s: Spec, f: Family, l: Rule, r: Rule, p: Packet) {
    && !Matches(l, p).No? && !Matches(r, p).No?
    && forall x :: x in Rules(s, f) && x.action == ACT_UNREACHABLE && l.priority < x.priority < r.priority ==> !Matches(x, p).Yes?
  }

  // ---- the additions of a plan ----

  lemma {:induction false} PlacesAre(s: Spec, f: Family, st: DiffState, hold: bool, order: seq<nat>, a: Action)
    requires a in Additions(s, f, st, hold, order)
    ensures a.priority in order && a.kind.Add? && a.rule in RulesAt(s, f, a.priority)
  {
    hide RulesAt, Missing;
    if a in AdditionsAt(s, f, st, hold, order[0]) {
      MissingAreWanted(RulesAt(s, f, order[0]), st.UsedAt(order[0]));
    } else {
      PlacesAre(s, f, st, hold, order[1..], a);
    }
  }

  lemma AllHere(s: Spec, f: Family, st: DiffState, hold: bool, p: nat)
    ensures forall i :: 0 <= i < |AdditionsAt(s, f, st, hold, p)| ==> AdditionsAt(s, f, st, hold, p)[i].priority == p
  {
    hide RulesAt, Missing;
  }

  /** Additions come in the order of their priorities' places. */
  lemma {:induction false} OrderKept(s: Spec, f: Family, st: DiffState, hold: bool, order: seq<nat>, a: nat, b: nat, i: nat, j: nat)
    requires Distinct(order) && a < b < |order|
    requires var acts := Additions(s, f, st, hold, order);
             i < |acts| && j < |acts| && acts[i].priority == order[a] && acts[j].priority == order[b]
    ensures i < j
  {
    hide AdditionsAt, RulesAt;
    var here, rest := AdditionsAt(s, f, st, hold, order[0]), Additions(s, f, st, hold, order[1..]);
    var acts := Additions(s, f, st, hold, order);
    assert acts == here + rest;
    AllHere(s, f, st, hold, order[0]);
    if i >= |here| {
      assert acts[i] == rest[i - |here|] && acts[i] in rest;
      PlacesAre(s, f, st, hold, order[1..], acts[i]);
      if j >= |here| {
        assert acts[j] == rest[j - |here|];
        assert a > 0;
        OrderKept(s, f, st, hold, order[1..], a - 1, b - 1, i - |here|, j - |here|);
      }
    }
  }

  lemma {:induction false} RemovalsNeverAdd(s: Spec, f: Family, all: seq<Rule>, rest: seq<Rule>, st: DiffState)
    requires forall x :: x in st.removals ==> !x.kind.Add?
    ensures forall x :: x in Scan(s, f, all, st, rest).removals ==> !x.kind.Add?
    decreases |rest|
  {
    hide RulesAt, LeftReturnPath, MatchIndex, DeleteMayTake, LeftoverCopy, ReturnPathShaped;
    if |rest| > 0 {
      RemovalsNeverAdd(s, f, all, rest[1..], Judge(s, f, all, st, rest[0]));
    }
  }

  lemma {:induction false} LeftAt(actual: seq<Rule>, p: nat, left: seq<Rule>)
    ensures forall x :: x in LeftMissing(actual, p, left) ==> x.priority == p
  {
    if |left| > 0 {
      LeftAt(actual, p, left[1..]);
    }
  }

  lemma {:induction false} NoneLeft(s: Spec, f: Family, actual: seq<Rule>, p: nat)
    requires !s.Skipped(f, p)
    ensures LeftReturnPath(s, f, actual, p) == []
  {
    hide ReturnPathShaped, HasItems;
    if |actual| > 0 {
      NoneLeft(s, f, actual[..|actual| - 1], p);
    }
  }

  /** An addition that is not left to a transaction is among the additions of the contract. */
  lemma AddIsAmong(s: Spec, f: Family, actual: seq<Rule>, hold: bool, i: nat)
    requires i < |Diff(s, f, actual, hold)| && Diff(s, f, actual, hold)[i].kind.Add? && !s.Skipped(f, Diff(s, f, actual, hold)[i].priority)
    ensures var adds := Additions(s, f, Scan(s, f, actual, START, actual), hold, AddOrder(s.config));
            i < |adds| && Diff(s, f, actual, hold)[i] == adds[i]
  {
    hide RulesAt, Scan, Additions, LeftReturnPath, LeftMissing;
    var st := Scan(s, f, actual, START, actual);
    var adds := Additions(s, f, st, hold, AddOrder(s.config));
    var a, b := LeftMissing(actual, BACKSTOP, LeftReturnPath(s, f, actual, BACKSTOP)), LeftMissing(actual, RETURN_PATH, LeftReturnPath(s, f, actual, RETURN_PATH));
    var plan := Diff(s, f, actual, hold);
    assert plan == adds + a + b + st.removals;
    RemovalsNeverAdd(s, f, actual, actual, START);
    LeftAt(actual, BACKSTOP, LeftReturnPath(s, f, actual, BACKSTOP));
    LeftAt(actual, RETURN_PATH, LeftReturnPath(s, f, actual, RETURN_PATH));
    if i >= |adds| {
      InTheRest(s, f, actual, adds, a, b, st.removals, i);
    }
  }

  lemma InTheRest(s: Spec, f: Family, actual: seq<Rule>, adds: seq<Action>, a: seq<Action>, b: seq<Action>, dels: seq<Action>, i: nat)
    requires a == LeftMissing(actual, BACKSTOP, LeftReturnPath(s, f, actual, BACKSTOP)) && b == LeftMissing(actual, RETURN_PATH, LeftReturnPath(s, f, actual, RETURN_PATH))
    requires (forall x :: x in a ==> x.priority == BACKSTOP) && (forall x :: x in b ==> x.priority == RETURN_PATH) && (forall x :: x in dels ==> !x.kind.Add?)
    requires |adds| <= i < |adds + a + b + dels|
    ensures !(adds + a + b + dels)[i].kind.Add? || s.Skipped(f, (adds + a + b + dels)[i].priority)
  {
    hide LeftReturnPath, ReturnPathShaped;
    var x := (adds + a + b + dels)[i];
    if i < |adds| + |a| {
      assert x == a[i - |adds|] && x in a;
      if !s.Skipped(f, BACKSTOP) {
        NoneLeft(s, f, actual, BACKSTOP);
      }
    } else if i < |adds| + |a| + |b| {
      assert x == b[i - |adds| - |a|] && x in b;
      if !s.Skipped(f, RETURN_PATH) {
        NoneLeft(s, f, actual, RETURN_PATH);
      }
    } else {
      assert x == dels[i - |adds| - |a| - |b|] && x in dels;
    }
  }

  // ---- the law ----

  /** Where the order has a priority. */
  function Rank(c: Config, p: nat): nat {
    if c.IsNativeSidecar() then
      if p == 97 then 0 else if p == 96 then 1 else if p == 98 then 2 else if p == 89 then 3
      else if p == 88 then 4 else if p == 90 then 5 else if p == 93 then 6 else 7
    else
      if p == 97 then 0 else if p == 98 then 1 else if p == 89 then 2 else if p == 92 then 3
      else if p == 102 then 4 else if p == 103 then 5 else if p == 104 then 6 else if p == 1 then 7
      else if p == 80 then 8 else if p == 88 then 9 else if p == 90 then 10 else if p == 91 then 11
      else if p == 94 then 12 else if p == 95 then 13 else 14
  }

  lemma RankIs(c: Config, p: nat)
    requires p in AddOrder(c)
    ensures Rank(c, p) < |AddOrder(c)| && AddOrder(c)[Rank(c, p)] == p
  {
  }

  lemma SlotExpected(s: Spec, f: Family, slot: Slot)
    requires slot in Slots(s, f) && !s.Skipped(f, PriorityOf(slot))
    ensures RuleOf(s.config, f, slot) in Rules(s, f)
  {
    hide RuleOf, Slots, Rules, PriorityOf;
    var e := RuleOf(s.config, f, slot);
    RuleAtPriority(s.config, f, slot);
    RulesAtWritten(s, f, e.priority);
    var k :| 0 <= k < |Slots(s, f)| && Slots(s, f)[k] == slot;
    assert Written(s, f)[k] == e;
    AtMembers(Written(s, f), e);
    AtMembers(Rules(s, f), e);
  }

  /** What rule 1 lets on is not the guard's. */
  lemma GuardsApart(c: Config, f: Family, p: Packet)
    requires c.overlayIf != ""
    ensures Matches(RuleOf(c, f, LocalGuard), p).No? || Matches(RuleOf(c, f, TempGuard), p).No?
  {
    hide MaskedEqual, UnknownSelects;
  }

  /** What the sidecar's own lookup applies to, its reject stops. */
  lemma SidecarStops(c: Config, f: Family, p: Packet)
    ensures !Matches(RuleOf(c, f, SidecarEgress), p).No? ==> Matches(RuleOf(c, f, SidecarReject), p).Yes?
  {
  }

  /** The two pairs the order has the other way round do not fall to each other. */
  lemma NoneFalls(s: Spec, f: Family, l: Slot, r: Slot, p: Packet)
    requires s.config.Valid() && SlotOf(s.config, f, l) && SlotOf(s.config, f, r) && !s.config.IsGluetunSidecar()
    requires (l.LocalGuard? && r.TempGuard?) || (l.SidecarEgress? && r.Backstop?)
    ensures !Falling(s, f, RuleOf(s.config, f, l), RuleOf(s.config, f, r), p)
  {
    hide Slots, Rules, Matches;
    var c := s.config;
    if l.SidecarEgress? {
      SidecarHas(s, f);
      SlotExpected(s, f, SidecarReject);
      SidecarStops(c, f, p);
    } else {
      GuardsApart(c, f, p);
    }
  }

  lemma SidecarHas(s: Spec, f: Family)
    requires s.config.IsNativeSidecar()
    ensures SidecarReject in Slots(s, f)
  {
    hide AllPairs;
    assert TailSlots(s.config)[1] == SidecarReject;
  }

  predicate IsReject(slot: Slot) {
    slot.TempGuard? || slot.MarkReject? || slot.OverlayReject? || slot.Backstop? || slot.IngressReject? || slot.SidecarReject? || slot.KillSwitch?
  }

  lemma RejectSlots(c: Config, f: Family, slot: Slot)
    ensures RuleOf(c, f, slot).action == if IsReject(slot) then ACT_UNREACHABLE else ACT_TO_TABLE
  {
  }

  lemma SlotRanks(c: Config, f: Family, l: Slot, r: Slot)
    requires SlotOf(c, f, l) && SlotOf(c, f, r) && !IsReject(l) && IsReject(r)
    requires PriorityOf(l) < PriorityOf(r) && !r.KillSwitch? && !c.IsGluetunSidecar()
    ensures Rank(c, PriorityOf(r)) < Rank(c, PriorityOf(l)) || (l.LocalGuard? && r.TempGuard?) || (l.SidecarEgress? && r.Backstop?)
  {
    if c.IsNativeSidecar() {
      SidecarRanks(c, f, l, r);
    } else {
      OverlayRanks(c, f, l, r);
    }
  }

  lemma SidecarRanks(c: Config, f: Family, l: Slot, r: Slot)
    requires SlotOf(c, f, l) && SlotOf(c, f, r) && !IsReject(l) && IsReject(r) && c.IsNativeSidecar()
    requires PriorityOf(l) < PriorityOf(r)
    ensures Rank(c, PriorityOf(r)) < Rank(c, PriorityOf(l)) || (l.SidecarEgress? && r.Backstop?)
  {
  }

  lemma OverlayRanks(c: Config, f: Family, l: Slot, r: Slot)
    requires SlotOf(c, f, l) && SlotOf(c, f, r) && !IsReject(l) && IsReject(r) && c.kind.Overlay?
    requires PriorityOf(l) < PriorityOf(r) && !r.KillSwitch?
    ensures Rank(c, PriorityOf(r)) < Rank(c, PriorityOf(l)) || (l.LocalGuard? && r.TempGuard?)
  {
  }

  /** In every plan the addition of a reject comes before that of each lookup a packet can fall to it
      from, but for the kill switch. */
  lemma RejectFirst(s: Spec, f: Family, actual: seq<Rule>, hold: bool, i: nat, j: nat)
    requires s.config.Valid() && i < |Diff(s, f, actual, hold)| && j < |Diff(s, f, actual, hold)|
    requires var l, r := Diff(s, f, actual, hold)[i], Diff(s, f, actual, hold)[j];
             && l.kind.Add? && r.kind.Add? && !s.Skipped(f, l.priority) && !s.Skipped(f, r.priority)
             && FallsTo(s, f, l.rule, r.rule) && r.priority != KILL_SWITCH
    ensures j < i
  {
    hide Diff, Additions, RulesAt, RuleOf, Rules, Rank, Falling, SlotOf;
    var c, st := s.config, Scan(s, f, actual, START, actual);
    var l, r := Diff(s, f, actual, hold)[i], Diff(s, f, actual, hold)[j];
    AddIsAmong(s, f, actual, hold, i);
    AddIsAmong(s, f, actual, hold, j);
    PlacesAre(s, f, st, hold, AddOrder(c), l);
    PlacesAre(s, f, st, hold, AddOrder(c), r);
    var ls := ExpectedSlot(s, f, l.priority, l.rule);
    var rs := ExpectedSlot(s, f, r.priority, r.rule);
    RejectSlots(c, f, ls);
    RejectSlots(c, f, rs);
    var p :| Falling(s, f, l.rule, r.rule, p);
    if (ls.LocalGuard? && rs.TempGuard?) || (ls.SidecarEgress? && rs.Backstop?) {
      NoneFalls(s, f, ls, rs, p);
    } else {
      SlotRanks(c, f, ls, rs);
      RankIs(c, l.priority);
      RankIs(c, r.priority);
      OrderDistinct(c);
      OrderKept(s, f, st, hold, AddOrder(c), Rank(c, r.priority), Rank(c, l.priority), j, i);
    }
  }

  /** The kill switch's exceptions are added before it. */
  lemma ExceptionsFirst(s: Spec, f: Family, actual: seq<Rule>, hold: bool, i: nat, j: nat)
    requires s.config.IsGluetun() && i < |Diff(s, f, actual, hold)| && j < |Diff(s, f, actual, hold)|
    requires var e, k := Diff(s, f, actual, hold)[i], Diff(s, f, actual, hold)[j];
             && e.kind.Add? && k.kind.Add? && (e.priority == GLUETUN_MARK_RULE || e.priority == HOST_SUBNETS) && k.priority == KILL_SWITCH
    ensures i < j
  {
    hide Diff, Additions, Scan, RulesAt, AddOrder;
    var c, st := s.config, Scan(s, f, actual, START, actual);
    var e, k := Diff(s, f, actual, hold)[i], Diff(s, f, actual, hold)[j];
    AddIsAmong(s, f, actual, hold, i);
    AddIsAmong(s, f, actual, hold, j);
    PlacesAre(s, f, st, hold, AddOrder(c), e);
    PlacesAre(s, f, st, hold, AddOrder(c), k);
    RankIs(c, e.priority);
    RankIs(c, k.priority);
    OrderDistinct(c);
    OrderKept(s, f, st, hold, AddOrder(c), Rank(c, e.priority), Rank(c, k.priority), i, j);
  }

  // ---- holding the kill switch back ----

  predicate IsKillSwitch(a: Action) {
    a.kind.Add? && a.priority == KILL_SWITCH
  }

  function ButKillSwitch(acts: seq<Action>): seq<Action> {
    if |acts| == 0 then [] else (if IsKillSwitch(acts[0]) then [] else [acts[0]]) + ButKillSwitch(acts[1..])
  }

  lemma {:induction false} ButConcat(a: seq<Action>, b: seq<Action>)
    ensures ButKillSwitch(a + b) == ButKillSwitch(a) + ButKillSwitch(b)
  {
    if |a| == 0 {
      assert a + b == b;
    } else {
      assert (a + b)[1..] == a[1..] + b;
      ButConcat(a[1..], b);
    }
  }

  lemma {:induction false} ButAll(acts: seq<Action>)
    ensures (forall a :: a in acts ==> IsKillSwitch(a)) ==> ButKillSwitch(acts) == []
    ensures (forall a :: a in acts ==> !IsKillSwitch(a)) ==> ButKillSwitch(acts) == acts
  {
    if |acts| > 0 {
      ButAll(acts[1..]);
    }
  }

  lemma {:induction false} HeldAdditions(s: Spec, f: Family, st: DiffState, order: seq<nat>)
    ensures Additions(s, f, st, true, order) == ButKillSwitch(Additions(s, f, st, false, order))
  {
    hide RulesAt, Missing;
    if |order| > 0 {
      var here, rest := AdditionsAt(s, f, st, false, order[0]), Additions(s, f, st, false, order[1..]);
      HeldAdditions(s, f, st, order[1..]);
      ButConcat(here, rest);
      ButAll(here);
    }
  }

  /** A comparison that holds the kill switch back asks for everything else it would ask for, in the
      same order, and not for the kill switch. */
  lemma HeldPlan(s: Spec, f: Family, actual: seq<Rule>)
    ensures Diff(s, f, actual, true) == ButKillSwitch(Diff(s, f, actual, false))
  {
    hide Additions, LeftMissing, LeftReturnPath, Scan;
    var st := Scan(s, f, actual, START, actual);
    var adds := Additions(s, f, st, false, AddOrder(s.config));
    var a, b := LeftMissing(actual, BACKSTOP, LeftReturnPath(s, f, actual, BACKSTOP)), LeftMissing(actual, RETURN_PATH, LeftReturnPath(s, f, actual, RETURN_PATH));
    HeldAdditions(s, f, st, AddOrder(s.config));
    LeftAt(actual, BACKSTOP, LeftReturnPath(s, f, actual, BACKSTOP));
    LeftAt(actual, RETURN_PATH, LeftReturnPath(s, f, actual, RETURN_PATH));
    RemovalsNeverAdd(s, f, actual, actual, START);
    ButAll(a);
    ButAll(b);
    ButAll(st.removals);
    ButConcat(adds, a);
    ButConcat(adds + a, b);
    ButConcat(adds + a + b, st.removals);
  }
}
