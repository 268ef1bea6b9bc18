/**
The rules of a contract against each other: no two of them are the same to the kernel,
and every priority one is expected at is in the order of additions.
*/
module Identities {
  import opened Rtnl
  import opened Contract
  import opened Comparison
  import opened OnePriority
  import opened Copies

  // ---- no two rules of the contract are the same to the kernel ----

  /** Several slots share a priority only where one is written per prefix or address. */
  lemma SharedPriority(c: Config, f: Family, a: Slot, b: Slot)
    requires c.kind.Sidecar? ==> c.overlay == Pair(None, None)
    requires SlotOf(c, f, a) && SlotOf(c, f, b) && PriorityOf(a) == PriorityOf(b)
    ensures (a.Lan? && b.Lan?) || (a.ReturnPath? && b.ReturnPath?) || (a.Backstop? && b.Backstop?) || a == b
  {
  }

  lemma SameSlot(c: Config, f: Family, a: Slot, b: Slot)
    requires c.Valid() && !c.IsGluetunSidecar() && SlotOf(c, f, a) && SlotOf(c, f, b)
    requires Identity(RuleOf(c, f, a)) == Identity(RuleOf(c, f, b))
    ensures a == b
  {
    RuleAtPriority(c, f, a);
    RuleAtPriority(c, f, b);
    SharedPriority(c, f, a, b);
    if a != b {
      SlotIsStandard(c, f, a);
      SlotIsStandard(c, f, b);
    }
  }

  lemma {:induction false} SlotsDistinctAt(c: Config, f: Family, slots: seq<Slot>, p: nat)
    requires c.Valid() && !c.IsGluetunSidecar() && Distinct(slots)
    requires forall slot :: slot in slots ==> SlotOf(c, f, slot)
    ensures DistinctIdentities(At(RulesOf(c, f, slots), p))
  {
    if |slots| > 0 {
      var rs := RulesOf(c, f, slots);
      assert rs[1..] == RulesOf(c, f, slots[1..]);
      SlotsDistinctAt(c, f, slots[1..], p);
      var rest := At(rs[1..], p);
      assert ([rs[0]] + rest)[1..] == rest;
      forall x | x in rest
        ensures Identity(x) != Identity(rs[0])
      {
        var i :| 0 <= i < |rs[1..]| && rs[1..][i] == x;
        if Identity(x) == Identity(rs[0]) {
          SameSlot(c, f, slots[i + 1], slots[0]);
        }
      }
    }
  }

  lemma {:induction false} PairsDistinct(c: Config, f: Family, addrs: seq<Addr>)
    requires Distinct(addrs)
    ensures Distinct(AllPairs(c, addrs))
  {
    if |addrs| > 0 {
      PairsDistinct(c, f, addrs[1..]);
      var here, rest := PairSlots(c, addrs[0]), AllPairs(c, addrs[1..]);
      forall slot | slot in rest
        ensures slot !in here
      {
        PairsAreSlots(c, f, addrs[1..], slot);
      }
      DistinctConcat(here, rest);
    }
  }

  lemma DistinctConcat<T>(a: seq<T>, b: seq<T>)
    requires Distinct(a) && Distinct(b) && forall x :: x in b ==> x !in a
    ensures Distinct(a + b)
  {
    forall i, j | 0 <= i < j < |a + b|
      ensures (a + b)[i] != (a + b)[j]
    {
      if i < |a| <= j {
        assert a[i] in a && b[j - |a|] in b;
      }
    }
  }

  /** Which part of the list a slot is written in. */
  function Part(slot: Slot): nat {
    match slot
    case LocalGuard => 0
    case TempGuard => 0
    case MarkHost => 0
    case MarkReject => 0
    case Lan(_) => 1
    case TunnelMark => 1
    case FromTunnel(_) => 2
    case OverlayMain(_) => 2
    case OverlayReject(_) => 2
    case ReturnPath(_) => 3
    case Backstop(_) => 3
    case _ => 4
  }

  predicate AllInPart(slots: seq<Slot>, k: nat) {
    forall slot :: slot in slots ==> Part(slot) == k
  }

  predicate AllBefore(slots: seq<Slot>, k: nat) {
    forall slot :: slot in slots ==> Part(slot) < k
  }

  lemma NextPart(a: seq<Slot>, b: seq<Slot>, k: nat)
    requires Distinct(a) && Distinct(b) && AllBefore(a, k) && AllInPart(b, k)
    ensures Distinct(a + b) && AllBefore(a + b, k + 1)
  {
    DistinctConcat(a, b);
  }

  lemma HeadPart(s: Spec, f: Family)
    ensures Distinct(HeadSlots(s, f)) && AllBefore(HeadSlots(s, f), 1)
  {
  }

  lemma OverlayPart(c: Config, f: Family)
    ensures Distinct(OverlaySlots(c, f)) && AllInPart(OverlaySlots(c, f), 2)
  {
  }

  lemma {:induction false} TailPart(c: Config)
    ensures Distinct(TailSlots(c)) && AllInPart(TailSlots(c), 4)
  {
  }

  lemma ListedParts(s: Spec, f: Family)
    requires s.config.Valid() && Distinct(s.returnPath.At(f))
    ensures Distinct(SidecarSlots(s.config, f)) && AllInPart(SidecarSlots(s.config, f), 1)
    ensures var pairs := AllPairs(s.config, s.returnPath.At(f)); Distinct(pairs) && AllInPart(pairs, 3)
  {
    MiddleDistinct(s.config, f);
    PairsDistinct(s.config, f, s.returnPath.At(f));
    forall slot | slot in AllPairs(s.config, s.returnPath.At(f))
      ensures Part(slot) == 3
    {
      PairsAreSlots(s.config, f, s.returnPath.At(f), slot);
    }
  }

  lemma SlotsDistinct(s: Spec, f: Family)
    requires s.config.Valid() && Distinct(s.returnPath.At(f))
    ensures Distinct(Slots(s, f))
  {
    var c := s.config;
    HeadPart(s, f);
    OverlayPart(c, f);
    TailPart(c);
    ListedParts(s, f);
    var head, mid, over := HeadSlots(s, f), SidecarSlots(c, f), OverlaySlots(c, f);
    NextPart(head, mid, 1);
    NextPart(head + mid, over, 2);
    NextPart(head + mid + over, AllPairs(c, s.returnPath.At(f)), 3);
    NextPart(head + mid + over + AllPairs(c, s.returnPath.At(f)), TailSlots(c), 4);
  }

  lemma MiddleDistinct(c: Config, f: Family)
    requires c.Valid()
    ensures Distinct(SidecarSlots(c, f))
  {
    var lan := c.lan.At(f);
    var slots := LanSlots(lan);
    forall i, j | 0 <= i < j < |slots|
      ensures slots[i] != slots[j]
    {
      assert lan[i] != lan[j];
    }
    DistinctConcat(slots, [TunnelMark]);
  }

  /** For every valid configuration the rules expected at a priority are distinct to the kernel. */
  lemma ExpectedDistinct(s: Spec, f: Family, p: nat)
    requires s.config.Valid() && Distinct(s.returnPath.At(f))
    ensures DistinctIdentities(RulesAt(s, f, p)) && AllStandard(RulesAt(s, f, p)) && AllAt(RulesAt(s, f, p), p)
  {
    RulesAtWritten(s, f, p);
    if !s.Skipped(f, p) && !s.config.IsGluetunSidecar() {
      SlotsDistinct(s, f);
      forall slot | slot in Slots(s, f)
        ensures SlotOf(s.config, f, slot)
      {
        FilledAreSlots(s, f, slot);
      }
      SlotsDistinctAt(s.config, f, Slots(s, f), p);
    }
    forall r | r in RulesAt(s, f, p)
      ensures Standard(r)
    {
      var slot := ExpectedSlot(s, f, p, r);
      SlotIsStandard(s.config, f, slot);
    }
  }

  lemma SlotInOrder(c: Config, f: Family, slot: Slot)
    requires SlotOf(c, f, slot) && !c.IsGluetunSidecar() && (c.kind.Sidecar? ==> c.overlay == Pair(None, None))
    ensures PriorityOf(slot) in AddOrder(c)
  {
  }

  lemma SlotOwned(s: Spec, f: Family, slot: Slot)
    requires SlotOf(s.config, f, slot) && !s.config.IsGluetunSidecar()
    ensures s.Owned(PriorityOf(slot))
    ensures !s.config.IsGluetun() ==> PriorityOf(slot) > 0 && s.Owned(PriorityOf(slot) - 1)
  {
  }

  /** Every priority of every backend at which a rule is expected is in the order of additions
      and the contract's own; natively so is the priority before. */
  lemma OrderIsComplete(s: Spec, f: Family, p: nat)
    requires s.config.Valid() && RulesAt(s, f, p) != []
    ensures p in AddOrder(s.config)
    ensures s.Owned(p)
    ensures !s.config.IsGluetun() ==> p > 0 && s.Owned(p - 1)
  {
    var slot := ExpectedSlot(s, f, p, RulesAt(s, f, p)[0]);
    SlotInOrder(s.config, f, slot);
    SlotOwned(s, f, slot);
  }

  /** While it is asked for, the temporary guard is the rule expected at its priority. */
  lemma GuardIsExpected(s: Spec, f: Family)
    requires s.config.IsNativeOverlay() && s.tempGuard.At(f)
    ensures RuleOf(s.config, f, TempGuard) in RulesAt(s, f, TEMP_GUARD)
  {
    hide RulesAt, RuleOf, TailSlots;
    RulesAtWritten(s, f, TEMP_GUARD);
    RuleAtPriority(s.config, f, TempGuard);
    var guard := RuleOf(s.config, f, TempGuard);
    assert HeadSlots(s, f)[1] == TempGuard;
    assert Slots(s, f)[1] == TempGuard;
    assert Written(s, f)[1] == guard;
    AtMembers(Written(s, f), guard);
  }
}
