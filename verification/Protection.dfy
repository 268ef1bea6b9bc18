/**
What the contract is for. On a native overlay whose rules at the contract's priorities are the
expected ones, everything the contract protects is held whatever else is behind them, and goes out
of the tunnel while it is up; so a pass that reports the contract holds has seen a namespace
nothing protected leaves.
*/
module Protection {
  import opened Rtnl
  import opened Contract
  import opened Judges
  import opened Identities
  import opened Policy
  import opened Escape
  import opened Pass
  import Lookup

  // ---- rules with the same items decide alike ----

  /** The two actions the native contract writes. */
  predicate PlainAction(r: Rule) {
    r.action == ACT_TO_TABLE || r.action == ACT_UNREACHABLE
  }

  lemma SameSelects(a: Opt<Prefix>, b: Opt<Prefix>, x: Addr)
    requires MaskedOpt(a) == MaskedOpt(b)
    ensures Selects(a, x) <==> Selects(b, x)
  {
    if a.Some? {
      assert a.v.Masked() == b.v.Masked();
    }
  }

  lemma SameMark(x: Rule, e: Rule, mark: nat)
    requires Items(x) == Items(e)
    ensures MaskedEqual(x.EffectiveMark().0, mark, x.EffectiveMark().1) <==> MaskedEqual(e.EffectiveMark().0, mark, e.EffectiveMark().1)
  {
  }

  lemma NoUnknown(x: Rule)
    ensures Items(x).unknown == {} <==> x.unknown == []
  {
    if |x.unknown| > 0 {
      assert x.unknown[0] in Items(x).unknown;
    } else {
      assert Items(x).unknown == {};
    }
  }

  /** The kernel's rule reads as the contract wrote it: same items, same decision. */
  lemma SameItems(x: Rule, e: Rule, p: Packet)
    requires Items(x) == Items(e) && e.unknown == [] && PlainAction(e)
    ensures Matches(x, p) == Matches(e, p) && x.action == e.action
    ensures x.action == ACT_TO_TABLE ==> x.table == e.table
    ensures x.suppressPrefixLen == e.suppressPrefixLen && x.suppressIfGroup == e.suppressIfGroup
  {
    hide MaskedEqual, Selects, MaskedOpt, UnknownSelects;
    SameSelects(x.src, e.src, p.src);
    SameSelects(x.dst, e.dst, p.dst);
    SameMark(x, e, p.mark);
    NoUnknown(x);
    NoUnknown(e);
  }

  // ---- the contract in force ----

  /** The rules at the contract's priorities are the expected ones, each once; where the return
      path is left to others, what is there has its shape. */
  ghost predicate InForce(s: State, f: Family) {
    var rules := s.rules.At(f);
    && SortedByPriority(rules) && Keys(OwnedOf(s.spec, f, rules)) == Keys(Rules(s.spec, f))
    && forall x :: x in rules && s.spec.Owned(x.priority) && s.spec.Skipped(f, x.priority) ==> ReturnPathShaped(s.spec, f, x)
  }

  lemma SlotFor(s: State, f: Family, x: Rule) returns (slot: Slot)
    requires s.spec.config.IsNativeOverlay() && InForce(s, f) && x in s.rules.At(f) && x.priority <= BACKSTOP
    ensures SlotOf(s.spec.config, f, slot) && PriorityOf(slot) == x.priority && Items(x) == Items(RuleOf(s.spec.config, f, slot))
  {
    hide RuleOf, Items, Rules, SortedByPriority, OwnedOf, Keys;
    var c := s.spec.config;
    if s.spec.Skipped(f, x.priority) {
      var e :| e in ReturnPathPair(c, f, x.src.v.addr) && e.priority == x.priority && Items(e) == Items(x);
      var i :| 0 <= i < |PairSlots(c, x.src.v.addr)| && e == RuleOf(c, f, PairSlots(c, x.src.v.addr)[i]);
      slot := PairSlots(c, x.src.v.addr)[i];
      RuleAtPriority(c, f, slot);
    } else {
      var owned := OwnedOf(s.spec, f, s.rules.At(f));
      OwnedAt(s.spec, f, s.rules.At(f), 0);
      assert HasExact(owned, x);
      KeysHas(owned, x);
      var e := KeysFrom(Rules(s.spec, f), Key(x));
      AtMembers(Rules(s.spec, f), e);
      slot := ExpectedSlot(s.spec, f, x.priority, e);
    }
  }

  lemma SlotIsPlain(c: Config, f: Family, slot: Slot)
    ensures RuleOf(c, f, slot).unknown == [] && PlainAction(RuleOf(c, f, slot))
  {
  }

  /** A rule in force keeps a protected packet it applies to held. */
  lemma InForceBenign(s: State, level: Level, x: Rule, p: Packet)
    requires Setting(s, level) && Protected(s, p) && InForce(s, p.f) && x in s.rules.At(p.f) && x.priority <= BACKSTOP
    ensures Benign(s, level, x, p)
  {
    hide InForce, RuleOf, Items, Matches, SlotOf, Protected;
    var c := s.spec.config;
    var slot := SlotFor(s, p.f, x);
    var e := RuleOf(c, p.f, slot);
    SlotIsPlain(c, p.f, slot);
    SameItems(x, e, p);
    OwnerRuleBenign(s, level, slot, e, p);
    if x.table == c.table {
      ExitLookupAllowed(s, level, x, p);
    } else {
      assert !s.Known(p.f, x.table);
    }
  }

  /** A slot the contract fills is a rule in force. */
  lemma Filled(s: State, f: Family, slot: Slot) returns (i: nat)
    requires s.spec.config.IsNativeOverlay() && InForce(s, f) && slot in Slots(s.spec, f) && !s.spec.Skipped(f, PriorityOf(slot))
    ensures i < |s.rules.At(f)| && s.rules.At(f)[i].priority == PriorityOf(slot)
    ensures Items(s.rules.At(f)[i]) == Items(RuleOf(s.spec.config, f, slot))
  {
    hide RuleOf, Items, Rules, SortedByPriority, OwnedOf, Keys, Slots, PriorityOf;
    var e, rules := RuleOf(s.spec.config, f, slot), s.rules.At(f);
    RuleAtPriority(s.spec.config, f, slot);
    RulesAtWritten(s.spec, f, e.priority);
    var k :| 0 <= k < |Slots(s.spec, f)| && Slots(s.spec, f)[k] == slot;
    assert Written(s.spec, f)[k] == e;
    AtMembers(Written(s.spec, f), e);
    assert e in RulesAt(s.spec, f, e.priority);
    assert HasExact(Rules(s.spec, f), e);
    KeysHas(Rules(s.spec, f), e);
    var x := KeysFrom(OwnedOf(s.spec, f, rules), Key(e));
    OwnedAt(s.spec, f, rules, 0);
    i :| 0 <= i < |rules| && rules[i] == x;
  }

  lemma {:induction false} PairIsFilled(c: Config, addrs: seq<Addr>, a: Addr)
    requires a in addrs && !c.IsGluetun()
    ensures ReturnPath(a) in AllPairs(c, addrs) && Backstop(a) in AllPairs(c, addrs)
  {
    if a == addrs[0] {
      assert PairSlots(c, a)[0] == ReturnPath(a) && PairSlots(c, a)[1] == Backstop(a);
    } else {
      PairIsFilled(c, addrs[1..], a);
    }
  }

  // ---- held ----

  /** Rules that keep the packet held, before one that stops it. */
  lemma {:induction false} StoppedBehind(s: State, level: Level, rules: seq<Rule>, i: nat, p: Packet)
    requires i < |rules| && Matches(rules[i], p).Yes? && rules[i].action == ACT_UNREACHABLE
    requires forall k :: 0 <= k < i ==> Benign(s, level, rules[k], p)
    ensures SafeFrom(s, level, rules, p)
  {
    hide Matches, LookupPlaces, LookupFalls, PlacesAllowed;
    if i > 0 {
      assert rules[1..][i - 1] == rules[i] && forall k :: 0 <= k < i - 1 ==> rules[1..][k] == rules[k + 1];
      StoppedBehind(s, level, rules[1..], i - 1, p);
      assert Benign(s, level, rules[0], p);
    }
  }

  /** The packet is the overlay's, or from an address the contract writes the return path for. */
  predicate Covered(s: State, p: Packet) {
    Protected(s, p) && (p.iif == s.spec.config.overlayIf || (p.src in s.spec.returnPath.At(p.f) && !s.spec.leave.At(p.f)))
  }

  /** The slot whose rule stops the packet in the end. */
  function StopSlot(s: State, p: Packet): Slot {
    if p.iif == s.spec.config.overlayIf then IngressReject else Backstop(p.src)
  }

  lemma StopSlotStops(s: State, p: Packet)
    requires s.spec.config.IsNativeOverlay() && s.spec.config.Valid() && Covered(s, p)
    ensures var slot, e := StopSlot(s, p), RuleOf(s.spec.config, p.f, StopSlot(s, p));
            && slot in Slots(s.spec, p.f) && !s.spec.Skipped(p.f, PriorityOf(slot)) && PriorityOf(slot) <= BACKSTOP
            && Matches(e, p).Yes? && e.action == ACT_UNREACHABLE
  {
    hide AllPairs;
    var c := s.spec.config;
    if p.iif == c.overlayIf {
      assert TailSlots(c)[2] == IngressReject;
    } else {
      PairIsFilled(c, s.spec.returnPath.At(p.f), p.src);
      HostCovers(p.src);
    }
  }

  lemma HostCovers(a: Addr)
    ensures HostPrefix(a).Contains(a)
  {
  }

  /** The contract in force holds everything it covers, whatever its exit table holds and whatever
      rules stand behind it: by the table that answers always, by the device with the table clean. */
  lemma ContractProtects(s: State, level: Level, p: Packet)
    requires Setting(s, level) && InForce(s, p.f) && Covered(s, p)
    ensures Held(s, level, p)
  {
    hide InForce, RuleOf, Items, Matches, Slots, Benign, SafeFrom, Protected;
    var rules, slot := s.rules.At(p.f), StopSlot(s, p);
    StopSlotStops(s, p);
    var i := Filled(s, p.f, slot);
    SlotIsPlain(s.spec.config, p.f, slot);
    SameItems(rules[i], RuleOf(s.spec.config, p.f, slot), p);
    assert SortedByPriority(rules) by { ForceSorted(s, p.f); }
    forall k | 0 <= k < i
      ensures Benign(s, level, rules[k], p)
    {
      InForceBenign(s, level, rules[k], p);
    }
    StoppedBehind(s, level, rules, i, p);
    HeldIsSafe(s, level, p);
  }

  lemma ForceSorted(s: State, f: Family)
    requires InForce(s, f)
    ensures SortedByPriority(s.rules.At(f))
  {
  }

  // ---- what a verdict means ----

  /** The namespace one family of a look shows, its exit table alone read. */
  ghost predicate Shows(s: Spec, snap: Snap, f: Family, st: State) {
    var t := s.config.table;
    && st.spec == Effective(s, snap, f) && st.rules == snap.rules && st.live == snap.addrs && st.exitIdx == snap.exitIdx
    && st.routes == Pair(map[t := snap.exit.v4], map[t := snap.exit.v6])
    && SortedByPriority(snap.rules.At(f)) && AllInTable(snap.exit.v4, t) && AllInTable(snap.exit.v6, t)
  }

  /** The one thing an exact table does not exclude that hides a route's device. */
  predicate NoEncap(rts: seq<Route>) {
    forall rt :: rt in rts ==> !rt.encap
  }

  /** An exact table sends everything to the tunnel's device or stops it. */
  lemma ExactIsClean(s: State, rts: seq<Route>, mode: TunnelMode, rt: Route)
    requires ExactTable(rts, s.exitIdx, mode) && rt in rts
    ensures CleanRoute(s, rt) <==> IsFallback(rt) || !rt.encap
  {
  }

  /** When a pass reports that the contract holds, everything protected is held in what it saw: by
      the table, and by the device as well if no route of the exit table is encapsulated. */
  lemma VerdictProtects(s: Spec, snap: Snap, st: State, level: Level, p: Packet)
    requires s.config.Valid() && s.config.IsNativeOverlay() && s.config.exitIf != "lo"
    requires AllClean(s, snap) && s.tempGuard == Pair(false, false)
    requires Distinct(s.returnPath.v4) && Distinct(s.returnPath.v6) && Shows(s, snap, p.f, st)
    requires level.ByDevice? ==> NoEncap(snap.exit.v4) && NoEncap(snap.exit.v6)
    requires Protected(st, p) && (p.iif == s.config.overlayIf || !s.leave.At(p.f))
    ensures Held(st, level, p)
  {
    hide AllClean, PlanFamily, Keys, OwnedOf, Rules, ReturnPathShaped, SortedByPriority;
    VerdictIsSound(s, snap);
    EffectiveDistinct(s, snap, p.f);
    JoinedHas(s.returnPath.At(p.f), snap.addrs.At(p.f));
    if level.ByDevice? {
      TableIsClean(st, V4, Mode(s, snap, V4));
      TableIsClean(st, V6, Mode(s, snap, V6));
    }
    SettingShown(s, snap, st, level, p.f);
    ContractProtects(st, level, p);
  }

  lemma TableIsClean(s: State, f: Family, mode: TunnelMode)
    requires s.routes.At(f).Keys == {s.spec.config.table}
    requires var rts := s.Table(f, s.spec.config.table); ExactTable(rts, s.exitIdx, mode) && NoEncap(rts)
    ensures forall t :: t in s.routes.At(f) ==> forall rt :: rt in s.routes.At(f)[t] ==> CleanRoute(s, rt)
  {
    hide ExactTable, CleanRoute;
    var rts := s.Table(f, s.spec.config.table);
    forall rt | rt in rts
      ensures CleanRoute(s, rt)
    {
      ExactIsClean(s, rts, mode, rt);
    }
  }

  lemma SettingShown(s: Spec, snap: Snap, st: State, level: Level, f: Family)
    requires s.config.Valid() && s.config.IsNativeOverlay() && s.config.exitIf != "lo" && Shows(s, snap, f, st)
    requires level.ByDevice? ==> CleanTable(st)
    ensures Setting(st, level)
  {
  }

  // ---- forwarded ----

  /** Rules that each let the packet on, before one that ends it. */
  lemma StraightTo(s: State, m: nat, p: Packet, x: Place, d: By)
    requires forall k: nat, j: nat :: j == k + 1 <= m ==> Lookup.GoesOn(s, s.rules.At(p.f), k, j, p)
    requires Lookup.EndsAt(s, s.rules.At(p.f), m, p, x, d)
    ensures exists o :: o in Ends(s, p) && o.place == x && o.decider == d
  {
    hide Lookup.GoesOn, Lookup.EndsAt, Ends;
    var path := seq(m + 1, k => k);
    assert Lookup.Leads(s, s.rules.At(p.f), 0, p, path, x, d);
    Lookup.EndsAre(s, p, x, d);
  }

  /** Up to the rule that sends it out, nothing in force but a lookup of the exit table ends the
      packet. */
  lemma InForceLets(s: State, k: nat, p: Packet)
    requires Setting(s, ByTable) && InForce(s, p.f) && k < |s.rules.At(p.f)| && At(s.rules.At(p.f), TEMP_GUARD) == []
    requires p.iif == s.spec.config.overlayIf || !AnswersLocally(s, p)
    requires var x := s.rules.At(p.f)[k];
             x.priority < FROM_TUNNEL || (x.priority <= INGRESS && p.iif != s.spec.config.exitIf
                                            && (x.action == ACT_TO_TABLE ==> x.table != s.spec.config.table || Matches(x, p).No?))
    ensures Lookup.GoesOn(s, s.rules.At(p.f), k, k + 1, p)
  {
    hide InForce, RuleOf, Items, Matches;
    var c, x := s.spec.config, s.rules.At(p.f)[k];
    var slot := SlotFor(s, p.f, x);
    SlotIsPlain(c, p.f, slot);
    SameItems(x, RuleOf(c, p.f, slot), p);
    AtMembers(s.rules.At(p.f), x);
    SlotLets(c, p.f, slot, p);
  }

  /** Before rule 97 the contract's own rules let the overlay's and the exit's packets on. */
  lemma SlotLets(c: Config, f: Family, slot: Slot, p: Packet)
    requires c.IsNativeOverlay() && c.Valid() && SlotOf(c, f, slot) && PriorityOf(slot) <= INGRESS && !slot.TempGuard?
    ensures var e := RuleOf(c, f, slot);
            && e.action == ACT_TO_TABLE
            && (e.table == TABLE_LOCAL ==> p.iif == c.overlayIf ==> Matches(e, p).No?)
            && (e.table != TABLE_LOCAL && e.table != c.table ==> e.priority == FROM_TUNNEL && (p.iif != c.exitIf ==> Matches(e, p).No?))
            && (PriorityOf(slot) < FROM_TUNNEL ==> e.table == TABLE_LOCAL)
  {
  }

  lemma {:induction false} OneTunnel(rts: seq<Route>, exitIdx: nat, i: nat, j: nat)
    requires CountTunnel(rts, exitIdx) <= 1 && i < j < |rts| && IsTunnelRoute(rts[i], exitIdx)
    ensures !IsTunnelRoute(rts[j], exitIdx)
  {
    if i > 0 {
      OneTunnel(rts[1..], exitIdx, i - 1, j - 1);
    } else if IsTunnelRoute(rts[j], exitIdx) {
      SomeTunnel(rts[1..], exitIdx, j - 1);
    }
  }

  lemma {:induction false} SomeTunnel(rts: seq<Route>, exitIdx: nat, j: nat)
    requires j < |rts| && IsTunnelRoute(rts[j], exitIdx)
    ensures CountTunnel(rts, exitIdx) >= 1
  {
    if j > 0 {
      SomeTunnel(rts[1..], exitIdx, j - 1);
    }
  }

  lemma {:induction false} TunnelAt(rts: seq<Route>, exitIdx: nat) returns (i: nat)
    requires CountTunnel(rts, exitIdx) >= 1
    ensures i < |rts| && IsTunnelRoute(rts[i], exitIdx)
  {
    if IsTunnelRoute(rts[0], exitIdx) {
      i := 0;
    } else {
      var k := TunnelAt(rts[1..], exitIdx);
      i := k + 1;
    }
  }

  lemma AnyDefaultCovers(pre: Prefix, a: Addr)
    requires pre.len == 0 && pre.addr.family == a.family && pre.addr.n < Pow2(Width(a.family)) && a.n < Pow2(Width(a.family))
    ensures pre.Contains(a)
  {
    hide Pow2, Width;
  }

  /** A lookup of an exact table with the tunnel's route in can answer with the tunnel. */
  lemma TunnelAnswers(s: State, r: Rule, p: Packet)
    requires r.table == s.spec.config.table != TABLE_LOCAL && r.suppressPrefixLen.None? && r.suppressIfGroup.None?
    requires s.Known(p.f, r.table) && p.dst.family == p.f && p.dst.n < Pow2(Width(p.f))
    requires var rts := s.Table(p.f, r.table);
             && ExactTable(rts, s.exitIdx, TunnelRequired) && s.exitIdx != 0 && NoEncap(rts) && AllInTable(rts, r.table)
             && forall rt :: rt in rts ==> rt.dst.addr.family == p.f && rt.dst.addr.n < Pow2(Width(p.f))
    ensures ViaDev(r.table, Some(s.exitIdx)) in LookupPlaces(s, r, p)
  {
    hide Pow2, Width, LookupPlaces, CountTunnel, CountFallback;
    var rts := s.Table(p.f, r.table);
    var i := TunnelAt(rts, s.exitIdx);
    AnyDefaultCovers(rts[i].dst, p.dst);
    forall j: nat | Lookup.Covering(rts, j, p)
      ensures !Lookup.Precedes(p.f, rts, j, i)
    {
      assert rts[j] in rts && rts[i] in rts;
      if j < i {
        if IsTunnelRoute(rts[j], s.exitIdx) {
          OneTunnel(rts, s.exitIdx, j, i);
        }
      } else if j > i {
        OneTunnel(rts, s.exitIdx, i, j);
      }
    }
    assert Lookup.CanDecide(s, rts, i, p) && AnswersAt(r, rts[i]);
    Lookup.LookupIs(s, r, p, ViaDev(r.table, Some(s.exitIdx)));
  }

  /** The slot whose rule sends the packet into the exit table. */
  function ExitSlot(s: State, p: Packet): Slot {
    if p.iif == s.spec.config.overlayIf then Ingress else ReturnPath(p.src)
  }

  lemma ExitSlotSends(s: State, p: Packet)
    requires s.spec.config.IsNativeOverlay() && s.spec.config.Valid() && Covered(s, p)
    ensures var slot, e := ExitSlot(s, p), RuleOf(s.spec.config, p.f, ExitSlot(s, p));
            && slot in Slots(s.spec, p.f) && !s.spec.Skipped(p.f, PriorityOf(slot)) && PriorityOf(slot) <= INGRESS
            && Matches(e, p).Yes? && e.action == ACT_TO_TABLE && e.table == s.spec.config.table
  {
    hide AllPairs;
    var c := s.spec.config;
    if p.iif == c.overlayIf {
      assert TailSlots(c)[0] == Ingress;
    } else {
      PairIsFilled(c, s.spec.returnPath.At(p.f), p.src);
      HostCovers(p.src);
    }
  }

  /** The first rule up to one that applies to the packet and looks the exit table up. */
  lemma {:induction false} FirstExit(c: Config, rules: seq<Rule>, i: nat, p: Packet) returns (m: nat)
    requires i < |rules| && !Matches(rules[i], p).No? && rules[i].action == ACT_TO_TABLE && rules[i].table == c.table
    ensures m <= i && !Matches(rules[m], p).No? && rules[m].action == ACT_TO_TABLE && rules[m].table == c.table
    ensures forall k :: 0 <= k < m && rules[k].action == ACT_TO_TABLE ==> rules[k].table != c.table || Matches(rules[k], p).No?
    decreases i
  {
    hide Matches;
    if j: nat :| j < i && !Matches(rules[j], p).No? && rules[j].action == ACT_TO_TABLE && rules[j].table == c.table {
      m := FirstExit(c, rules, j, p);
    } else {
      m := i;
    }
  }

  /** With the tunnel's route in an exact table, everything covered can go out of the tunnel. */
  lemma ContractForwards(s: State, p: Packet)
    requires Setting(s, ByTable) && InForce(s, p.f) && Covered(s, p) && At(s.rules.At(p.f), TEMP_GUARD) == []
    requires p.dst.family == p.f && p.dst.n < Pow2(Width(p.f))
    requires var rts := s.Table(p.f, s.spec.config.table);
             && ExactTable(rts, s.exitIdx, TunnelRequired) && s.exitIdx != 0 && NoEncap(rts)
             && forall rt :: rt in rts ==> rt.dst.addr.family == p.f && rt.dst.addr.n < Pow2(Width(p.f))
    ensures exists o :: o in Ends(s, p) && o.place == ViaDev(s.spec.config.table, Some(s.exitIdx))
  {
    hide InForce, RuleOf, Items, Matches, Slots, Pow2, Width, ExactTable, LookupPlaces, Lookup.GoesOn, Ends;
    var c, rules, slot := s.spec.config, s.rules.At(p.f), ExitSlot(s, p);
    ExitSlotSends(s, p);
    var i := Filled(s, p.f, slot);
    SlotIsPlain(c, p.f, slot);
    SameItems(rules[i], RuleOf(c, p.f, slot), p);
    var m := FirstExit(c, rules, i, p);
    ForceSorted(s, p.f);
    forall k: nat, j: nat | j == k + 1 <= m
      ensures Lookup.GoesOn(s, rules, k, j, p)
    {
      InForceLets(s, k, p);
    }
    NoSuppress(s, p.f, rules[m]);
    TunnelAnswers(s, rules[m], p);
    StraightTo(s, m, p, ViaDev(c.table, Some(s.exitIdx)), ByRule(rules[m].priority, Items(rules[m])));
  }

  lemma NoSuppress(s: State, f: Family, x: Rule)
    requires s.spec.config.IsNativeOverlay() && InForce(s, f) && x in s.rules.At(f) && x.priority <= BACKSTOP
    ensures x.suppressPrefixLen.None? && x.suppressIfGroup.None?
  {
    hide InForce, RuleOf, SlotOf;
    var slot := SlotFor(s, f, x);
    SlotNoSuppress(s.spec.config, f, slot);
  }

  lemma SlotNoSuppress(c: Config, f: Family, slot: Slot)
    requires c.IsNativeOverlay() && SlotOf(c, f, slot)
    ensures RuleOf(c, f, slot).suppressPrefixLen.None? && RuleOf(c, f, slot).suppressIfGroup.None?
  {
  }

  /** What comes back to a client from the tunnel is looked up in the main table, by rule 90. */
  lemma ContractReturns(s: State, overlay: Prefix, p: Packet)
    requires Setting(s, ByTable) && InForce(s, p.f) && At(s.rules.At(p.f), TEMP_GUARD) == []
    requires s.spec.config.overlay.At(p.f) == Some(overlay) && overlay.Contains(p.dst)
    requires p.iif == s.spec.config.exitIf && !AnswersLocally(s, p)
    ensures exists o :: o in Ends(s, p) && o.place == ViaTable(TABLE_MAIN) && o.decider.ByRule? && o.decider.priority == FROM_TUNNEL
  {
    hide InForce, RuleOf, Items, Matches, Slots, Lookup.GoesOn, Ends;
    var c, rules := s.spec.config, s.rules.At(p.f);
    ReturnSlotSends(s, overlay, p);
    var at := Filled(s, p.f, FromTunnel(overlay));
    var i := FirstAt(rules, FROM_TUNNEL);
    var slot := SlotFor(s, p.f, rules[i]);
    SlotIsPlain(c, p.f, slot);
    SameItems(rules[i], RuleOf(c, p.f, slot), p);
    ForceSorted(s, p.f);
    forall k: nat, j: nat | j == k + 1 <= i
      ensures Lookup.GoesOn(s, rules, k, j, p)
    {
      InForceLets(s, k, p);
    }
    assert !s.Known(p.f, TABLE_MAIN);
    StraightTo(s, i, p, ViaTable(TABLE_MAIN), ByRule(rules[i].priority, Items(rules[i])));
  }

  lemma ReturnSlotSends(s: State, overlay: Prefix, p: Packet)
    requires s.spec.config.IsNativeOverlay() && s.spec.config.overlay.At(p.f) == Some(overlay) && overlay.Contains(p.dst)
    requires p.iif == s.spec.config.exitIf
    ensures FromTunnel(overlay) in Slots(s.spec, p.f)
    ensures forall slot :: SlotOf(s.spec.config, p.f, slot) && PriorityOf(slot) == FROM_TUNNEL ==> slot == FromTunnel(overlay)
    ensures var e := RuleOf(s.spec.config, p.f, FromTunnel(overlay));
            Matches(e, p).Yes? && e.action == ACT_TO_TABLE && e.table == TABLE_MAIN
  {
    hide AllPairs;
    assert OverlaySlots(s.spec.config, p.f)[0] == FromTunnel(overlay);
  }
}
