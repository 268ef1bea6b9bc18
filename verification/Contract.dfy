/**
The routing contract at one moment: the rules the kernel must hold for a family,
for every backend, and which priorities belong to the contract.
*/
module Contract {
  import opened Rtnl

  const LOCAL_GUARD := 1
  const TEMP_GUARD := 80
  const MARK_HOST := 88
  const MARK_REJECT := 89
  const FROM_TUNNEL := 90
  const OVERLAY_MAIN := 91
  const OVERLAY_REJECT := 92
  const TUNNEL_MARK := 93
  const RETURN_PATH := 94
  const INGRESS := 95
  const EGRESS := 96
  const INGRESS_REJECT := 97
  const BACKSTOP := 98
  const GLUETUN_MARK_RULE := 102
  const HOST_SUBNETS := 103
  const KILL_SWITCH := 104

  const GLUETUN_MARK := 51820

  datatype Kind = Overlay | Sidecar
  datatype Backend = Native | Gluetun

  datatype Config = Config(
    kind: Kind,
    backend: Backend,
    overlay: Pair<Opt<Prefix>>,
    overlayIf: string,
    exitIf: string,
    table: nat,
    hostTable: nat,
    controlMark: nat,
    lan: Pair<seq<Prefix>>
  ) {
    predicate IsGluetun() { backend.Gluetun? }
    predicate IsNativeSidecar() { kind.Sidecar? && backend.Native? }
    predicate IsGluetunSidecar() { kind.Sidecar? && backend.Gluetun? }
    predicate IsNativeOverlay() { kind.Overlay? && backend.Native? }

    /** What reading the settings guarantees about the fields the contract uses. */
    predicate Valid() {
      && table >= 256
      && (IsGluetun() && kind.Overlay? ==> hostTable >= 256 && hostTable != table)
      && (kind.Overlay? ==> overlayIf != "" && exitIf != "" && overlayIf != exitIf)
      && (kind.Sidecar? ==> overlay == Pair(None, None))
      && (forall f :: overlay.At(f).Some? ==>
            overlay.At(f).v.len > 0 && overlay.At(f).v.Masked() == overlay.At(f).v)
      && controlMark <= ALL_ONES
      && ((IsGluetun() && kind.Overlay?) || IsNativeSidecar() ==> controlMark != 0)
      && (IsNativeSidecar() ==> controlMark != table)
      && (forall f :: Distinct(lan.At(f)))
      && (forall f, p :: p in lan.At(f) ==> p.len > 0 && p.Masked() == p)
    }
  }

  predicate Distinct<T(==)>(s: seq<T>) {
    forall i, j :: 0 <= i < j < |s| ==> s[i] != s[j]
  }

  datatype Spec = Spec(
    config: Config,
    returnPath: Pair<seq<Addr>>,
    leave: Pair<bool>,
    tempGuard: Pair<bool>
  ) {
    /** Whether a priority belongs to the contract. */
    predicate Owned(p: nat) {
      if config.IsNativeSidecar() then 1 <= p <= BACKSTOP
      else if config.IsGluetun() then p <= 97 || GLUETUN_MARK_RULE <= p <= KILL_SWITCH
      else p <= BACKSTOP
    }

    /** The priorities whose return-path rules are left out of the comparison. */
    predicate Skipped(f: Family, p: nat) {
      !config.IsGluetun() && leave.At(f) && (p == RETURN_PATH || p == BACKSTOP)
    }
  }

  // ---- the rules ----

  function LookupRule(priority: nat, f: Family, table: nat): Rule {
    Bare(f, priority, ACT_TO_TABLE, table)
  }

  function RejectRule(priority: nat, f: Family): Rule {
    Bare(f, priority, ACT_UNREACHABLE, 0)
  }

  function Icmp(f: Family): nat {
    if f.V6? then 58 else 1
  }

  function Marked(r: Rule, mark: nat): Rule {
    r.(iif := "lo", fwMark := Some(mark), fwMask := Some(ALL_ONES))
  }

  function FromAddress(r: Rule, a: Addr): Rule {
    r.(src := Some(HostPrefix(a)), ipProto := Some(Icmp(r.family)))
  }

  /** The places in the contract a rule is written for. */
  datatype Slot =
    | LocalGuard | TempGuard
    | MarkHost | MarkReject
    | Lan(prefix: Prefix) | TunnelMark
    | FromTunnel(overlay: Prefix) | OverlayMain(overlay: Prefix) | OverlayReject(overlay: Prefix)
    | ReturnPath(a: Addr) | Backstop(a: Addr)
    | Ingress | Egress | IngressReject
    | SidecarEgress | SidecarReject
    | GluetunMark | HostSubnets | KillSwitch

  function RuleOf(c: Config, f: Family, slot: Slot): Rule {
    match slot
    case LocalGuard => LookupRule(LOCAL_GUARD, f, TABLE_LOCAL).(invert := true, iif := c.overlayIf)
    case TempGuard => RejectRule(TEMP_GUARD, f).(iif := c.overlayIf)
    case MarkHost =>
      Marked(LookupRule(MARK_HOST, f, if c.IsNativeSidecar() then TABLE_MAIN else c.hostTable), c.controlMark)
    case MarkReject => Marked(RejectRule(MARK_REJECT, f), c.controlMark)
    case Lan(prefix) => LookupRule(FROM_TUNNEL, f, TABLE_MAIN).(iif := "lo", dst := Some(prefix))
    case TunnelMark => Marked(LookupRule(TUNNEL_MARK, f, TABLE_MAIN), c.table)
    case FromTunnel(overlay) => LookupRule(FROM_TUNNEL, f, TABLE_MAIN).(iif := c.exitIf, dst := Some(overlay))
    case OverlayMain(overlay) =>
      LookupRule(OVERLAY_MAIN, f, TABLE_MAIN).(iif := "lo", dst := Some(overlay), suppressPrefixLen := Some(0))
    case OverlayReject(overlay) => RejectRule(OVERLAY_REJECT, f).(iif := "lo", dst := Some(overlay))
    case ReturnPath(a) => FromAddress(LookupRule(RETURN_PATH, f, c.table), a)
    case Backstop(a) => FromAddress(RejectRule(BACKSTOP, f), a)
    case Ingress => LookupRule(INGRESS, f, c.table).(iif := c.overlayIf)
    case Egress => LookupRule(EGRESS, f, c.table).(oif := c.exitIf)
    case IngressReject => RejectRule(INGRESS_REJECT, f).(iif := c.overlayIf)
    case SidecarEgress => LookupRule(EGRESS, f, c.table).(iif := "lo")
    case SidecarReject => RejectRule(INGRESS_REJECT, f).(iif := "lo")
    case GluetunMark => Marked(LookupRule(GLUETUN_MARK_RULE, f, TABLE_MAIN), GLUETUN_MARK)
    case HostSubnets => LookupRule(HOST_SUBNETS, f, c.hostTable).(iif := "lo", suppressPrefixLen := Some(0))
    case KillSwitch => RejectRule(KILL_SWITCH, f).(iif := "lo")
  }

  function PriorityOf(slot: Slot): nat {
    match slot
    case LocalGuard => LOCAL_GUARD
    case TempGuard => TEMP_GUARD
    case MarkHost => MARK_HOST
    case MarkReject => MARK_REJECT
    case Lan(_) => FROM_TUNNEL
    case TunnelMark => TUNNEL_MARK
    case FromTunnel(_) => FROM_TUNNEL
    case OverlayMain(_) => OVERLAY_MAIN
    case OverlayReject(_) => OVERLAY_REJECT
    case ReturnPath(_) => RETURN_PATH
    case Backstop(_) => BACKSTOP
    case Ingress => INGRESS
    case Egress => EGRESS
    case IngressReject => INGRESS_REJECT
    case SidecarEgress => EGRESS
    case SidecarReject => INGRESS_REJECT
    case GluetunMark => GLUETUN_MARK_RULE
    case HostSubnets => HOST_SUBNETS
    case KillSwitch => KILL_SWITCH
  }

  lemma RuleAtPriority(c: Config, f: Family, slot: Slot)
    ensures RuleOf(c, f, slot).priority == PriorityOf(slot)
  {
  }

  /** The slot is one the configuration's backend writes. */
  predicate SlotOf(c: Config, f: Family, slot: Slot) {
    match slot
    case LocalGuard => !c.IsNativeSidecar()
    case TempGuard => !c.IsNativeSidecar()
    case MarkHost => c.IsGluetun() || c.IsNativeSidecar()
    case MarkReject => c.IsGluetun() || c.IsNativeSidecar()
    case Lan(prefix) => c.IsNativeSidecar() && prefix in c.lan.At(f)
    case TunnelMark => c.IsNativeSidecar()
    case FromTunnel(overlay) => c.overlay.At(f) == Some(overlay)
    case OverlayMain(overlay) => c.IsGluetun() && c.overlay.At(f) == Some(overlay)
    case OverlayReject(overlay) => c.IsGluetun() && c.overlay.At(f) == Some(overlay)
    case ReturnPath(_) => true
    case Backstop(_) => !c.IsGluetun()
    case Ingress => !c.IsNativeSidecar()
    case Egress => !c.IsNativeSidecar()
    case IngressReject => !c.IsNativeSidecar()
    case SidecarEgress => c.IsNativeSidecar()
    case SidecarReject => c.IsNativeSidecar()
    case GluetunMark => c.IsGluetun()
    case HostSubnets => c.IsGluetun()
    case KillSwitch => c.IsGluetun()
  }

  /** Rule 94 for one tunnel address and, natively, the backstop at 98 behind it. */
  function PairSlots(c: Config, a: Addr): seq<Slot> {
    [ReturnPath(a)] + if c.IsGluetun() then [] else [Backstop(a)]
  }

  function ReturnPathPair(c: Config, f: Family, a: Addr): seq<Rule> {
    RulesOf(c, f, PairSlots(c, a))
  }

  /** Exactly rule 94 or 98 as the contract writes it for some address of the family. */
  predicate ReturnPathShaped(s: Spec, f: Family, r: Rule) {
    && r.family == f
    && r.src.Some?
    && r.src.v.len == Width(r.src.v.addr.family)
    && r.src.v.addr.family == f
    && exists e :: e in ReturnPathPair(s.config, f, r.src.v.addr) && e.priority == r.priority && Items(e) == Items(r)
  }

  function AllPairs(c: Config, addrs: seq<Addr>): seq<Slot> {
    if |addrs| == 0 then [] else PairSlots(c, addrs[0]) + AllPairs(c, addrs[1..])
  }

  function LanSlots(prefixes: seq<Prefix>): seq<Slot> {
    seq(|prefixes|, i requires 0 <= i < |prefixes| => Lan(prefixes[i]))
  }

  function HeadSlots(s: Spec, f: Family): seq<Slot> {
    var c := s.config;
    (if c.IsNativeSidecar() then []
     else [LocalGuard] + if s.tempGuard.At(f) then [TempGuard] else [])
    + if c.IsGluetun() || c.IsNativeSidecar() then [MarkHost, MarkReject] else []
  }

  function SidecarSlots(c: Config, f: Family): seq<Slot> {
    if c.IsNativeSidecar() then LanSlots(c.lan.At(f)) + [TunnelMark] else []
  }

  function OverlaySlots(c: Config, f: Family): seq<Slot> {
    match c.overlay.At(f)
    case None => []
    case Some(overlay) =>
      [FromTunnel(overlay)] + if c.IsGluetun() then [OverlayMain(overlay), OverlayReject(overlay)] else []
  }

  function TailSlots(c: Config): seq<Slot> {
    (if c.IsNativeSidecar() then [SidecarEgress, SidecarReject] else [Ingress, Egress, IngressReject])
    + if c.IsGluetun() then [GluetunMark, HostSubnets, KillSwitch] else []
  }

  /** The slots filled for a family, in the order the contract writes them. */
  function Slots(s: Spec, f: Family): seq<Slot> {
    var c := s.config;
    if c.IsGluetunSidecar() then []
    else HeadSlots(s, f) + SidecarSlots(c, f) + OverlaySlots(c, f) + AllPairs(c, s.returnPath.At(f)) + TailSlots(c)
  }

  function RulesOf(c: Config, f: Family, slots: seq<Slot>): (rs: seq<Rule>)
    ensures |rs| == |slots|
    ensures forall i :: 0 <= i < |rs| ==> rs[i] == RuleOf(c, f, slots[i])
  {
    seq(|slots|, i requires 0 <= i < |slots| => RuleOf(c, f, slots[i]))
  }

  /** The rules in the order the contract writes them, before the ones left out go. */
  function Written(s: Spec, f: Family): seq<Rule> {
    RulesOf(s.config, f, Slots(s, f))
  }

  function Compared(s: Spec, f: Family, rs: seq<Rule>): seq<Rule> {
    if |rs| == 0 then []
    else (if s.Skipped(f, rs[0].priority) then [] else [rs[0]]) + Compared(s, f, rs[1..])
  }

  /** A stable sort by priority. */
  function SortRules(rs: seq<Rule>): seq<Rule> {
    if |rs| == 0 then [] else Insert(SortRules(rs[..|rs| - 1]), rs[|rs| - 1])
  }

  /** The rules expected for a family, in priority order. */
  function Rules(s: Spec, f: Family): seq<Rule> {
    SortRules(Compared(s, f, Written(s, f)))
  }

  function RulesAt(s: Spec, f: Family, p: nat): seq<Rule> {
    At(Rules(s, f), p)
  }

  /** Rules as the code builds it: appended one by one unless left out, kept in order. */
  method BuildRules(s: Spec, f: Family, written: seq<Rule>) returns (out: seq<Rule>)
    ensures out == SortRules(Compared(s, f, written))
    ensures written == Written(s, f) ==> out == Rules(s, f)
  {
    out := [];
    for i := 0 to |written|
      invariant out == SortRules(Compared(s, f, written[..i]))
    {
      ComparedSnoc(s, f, written[..i], written[i]);
      assert written[..i + 1] == written[..i] + [written[i]];
      if !s.Skipped(f, written[i].priority) {
        out := Insert(out, written[i]);
      }
    }
    assert written[..|written|] == written;
  }

  lemma ComparedSnoc(s: Spec, f: Family, rs: seq<Rule>, r: Rule)
    ensures SortRules(Compared(s, f, rs + [r])) ==
            if s.Skipped(f, r.priority) then SortRules(Compared(s, f, rs))
            else Insert(SortRules(Compared(s, f, rs)), r)
  {
    ComparedConcat(s, f, rs, [r]);
    var c := Compared(s, f, rs);
    if s.Skipped(f, r.priority) {
      assert Compared(s, f, [r]) == [];
      assert c + [] == c;
    } else {
      assert Compared(s, f, [r]) == [r];
      assert (c + [r])[..|c|] == c;
    }
  }

  // ---- what the list holds ----

  lemma {:induction false} ComparedConcat(s: Spec, f: Family, a: seq<Rule>, b: seq<Rule>)
    ensures Compared(s, f, a + b) == Compared(s, f, a) + Compared(s, f, b)
  {
    if |a| == 0 {
      assert a + b == b;
    } else {
      assert (a + b)[1..] == a[1..] + b;
      ComparedConcat(s, f, a[1..], b);
    }
  }

  lemma {:induction false} ComparedAt(s: Spec, f: Family, rs: seq<Rule>, p: nat)
    ensures At(Compared(s, f, rs), p) == if s.Skipped(f, p) then [] else At(rs, p)
  {
    if |rs| > 0 {
      ComparedAt(s, f, rs[1..], p);
      AtConcat(if s.Skipped(f, rs[0].priority) then [] else [rs[0]], Compared(s, f, rs[1..]), p);
    }
  }

  lemma {:induction false} SortRulesSorted(rs: seq<Rule>)
    ensures SortedByPriority(SortRules(rs))
  {
    if |rs| > 0 {
      SortRulesSorted(rs[..|rs| - 1]);
      InsertSorted(SortRules(rs[..|rs| - 1]), rs[|rs| - 1]);
    }
  }

  lemma {:induction false} SortedAt(rs: seq<Rule>, p: nat)
    ensures At(SortRules(rs), p) == At(rs, p)
  {
    if |rs| > 0 {
      var init, last := rs[..|rs| - 1], rs[|rs| - 1];
      SortedAt(init, p);
      SortRulesSorted(init);
      InsertAt(SortRules(init), last, p);
      AtConcat(init, [last], p);
      assert rs == init + [last];
    }
  }

  /** The rules expected at a priority are the ones written there, in order. */
  lemma RulesAtWritten(s: Spec, f: Family, p: nat)
    ensures SortedByPriority(Rules(s, f))
    ensures RulesAt(s, f, p) == if s.Skipped(f, p) then [] else At(Written(s, f), p)
  {
    SortRulesSorted(Compared(s, f, Written(s, f)));
    SortedAt(Compared(s, f, Written(s, f)), p);
    ComparedAt(s, f, Written(s, f), p);
  }

  lemma {:induction false} PairsAreSlots(c: Config, f: Family, addrs: seq<Addr>, slot: Slot)
    requires slot in AllPairs(c, addrs)
    ensures SlotOf(c, f, slot)
    ensures (slot.ReturnPath? && slot.a in addrs) || (slot.Backstop? && slot.a in addrs)
  {
    if slot !in PairSlots(c, addrs[0]) {
      PairsAreSlots(c, f, addrs[1..], slot);
    }
  }

  lemma HeadAreSlots(s: Spec, f: Family, slot: Slot)
    requires slot in HeadSlots(s, f)
    ensures SlotOf(s.config, f, slot)
    ensures slot.LocalGuard? || slot.TempGuard? || slot.MarkHost? || slot.MarkReject?
  {
  }

  lemma MiddleAreSlots(c: Config, f: Family, slot: Slot)
    requires slot in SidecarSlots(c, f) || slot in OverlaySlots(c, f)
    ensures SlotOf(c, f, slot)
  {
  }

  lemma TailAreSlots(c: Config, f: Family, slot: Slot)
    requires slot in TailSlots(c)
    ensures SlotOf(c, f, slot)
  {
  }

  lemma FilledAreSlots(s: Spec, f: Family, slot: Slot)
    requires slot in Slots(s, f)
    ensures SlotOf(s.config, f, slot)
  {
    var c := s.config;
    if slot in HeadSlots(s, f) {
      HeadAreSlots(s, f, slot);
    } else if slot in SidecarSlots(c, f) || slot in OverlaySlots(c, f) {
      MiddleAreSlots(c, f, slot);
    } else if slot in AllPairs(c, s.returnPath.At(f)) {
      PairsAreSlots(c, f, s.returnPath.At(f), slot);
    } else {
      TailAreSlots(c, f, slot);
    }
  }

  /** Every expected rule fills a slot of the contract, at its own priority. */
  lemma ExpectedSlot(s: Spec, f: Family, p: nat, r: Rule) returns (slot: Slot)
    requires r in RulesAt(s, f, p)
    ensures SlotOf(s.config, f, slot) && r == RuleOf(s.config, f, slot) && PriorityOf(slot) == p == r.priority
    ensures !s.Skipped(f, p) && !s.config.IsGluetunSidecar()
  {
    RulesAtWritten(s, f, p);
    var i :| 0 <= i < |Written(s, f)| && Written(s, f)[i] == r;
    slot := Slots(s, f)[i];
    FilledAreSlots(s, f, slot);
    RuleAtPriority(s.config, f, slot);
  }
}
