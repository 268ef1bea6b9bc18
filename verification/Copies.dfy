/**
What the rebuild of a priority relies on: the rules the contract writes are all in one
standard form, no two of them are the same to the kernel, and the protective copy of a
rule, one priority earlier, cannot be confused with a rule expected there.
*/
module Copies {
  import opened Rtnl
  import opened Contract
  import opened OnePriority

  lemma {:induction false} FloorOne(n: nat)
    ensures Floor(n, 1) == n
  {
    if n > 0 {
      FloorOne(n - 1);
    }
  }

  lemma HostIsMasked(a: Addr)
    ensures HostPrefix(a).Masked() == HostPrefix(a)
  {
    FloorOne(a.n);
  }

  lemma SlotIsStandard(c: Config, f: Family, slot: Slot)
    requires c.Valid() && SlotOf(c, f, slot) && !c.IsGluetunSidecar()
    ensures Standard(RuleOf(c, f, slot))
  {
    match slot
    case ReturnPath(a) => HostIsMasked(a);
    case Backstop(a) => HostIsMasked(a);
    case _ =>
  }

  /** The protective copy of a rule, one priority earlier. */
  function CopyOf(w: Rule): Rule
    requires w.priority > 0
  {
    w.(priority := w.priority - 1)
  }

  /** The rule at one priority and the one rule expected there differ in what a delete compares. */
  predicate Unlike(cp: Rule, x: Rule) {
    || cp.action != x.action
    || (cp.table != 0 && cp.table != x.table)
    || (cp.iif != "" && cp.iif != x.iif)
    || (cp.oif != "" && cp.oif != x.oif)
    || (cp.suppressPrefixLen.Some? && cp.suppressPrefixLen != x.suppressPrefixLen)
    || (cp.src.Some? && x.src.None?)
  }

  /** What may stand one priority before a slot. */
  lemma Neighbours(c: Config, f: Family, e: Slot, w: Slot)
    requires !c.IsGluetunSidecar() && SlotOf(c, f, e) && SlotOf(c, f, w) && PriorityOf(w) == PriorityOf(e) + 1
    ensures
      || (w.MarkReject? && e.MarkHost?)
      || ((w.Lan? || w.FromTunnel?) && e.MarkReject?)
      || (w.OverlayMain? && (e.Lan? || e.FromTunnel?))
      || (w.OverlayReject? && e.OverlayMain?)
      || (w.TunnelMark? && e.OverlayReject?)
      || (w.ReturnPath? && e.TunnelMark?)
      || (w.Ingress? && e.ReturnPath?)
      || ((w.Egress? || w.SidecarEgress?) && e.Ingress?)
      || ((w.IngressReject? || w.SidecarReject?) && (e.Egress? || e.SidecarEgress?))
      || (w.Backstop? && (e.IngressReject? || e.SidecarReject?))
      || (w.HostSubnets? && e.GluetunMark?)
      || (w.KillSwitch? && e.HostSubnets?)
  {
  }

  lemma SlotsUnlike(c: Config, f: Family, e: Slot, w: Slot)
    requires c.table >= 256 && (c.IsGluetun() ==> c.hostTable >= 256)
    requires c.kind.Overlay? ==> c.overlayIf != "" && c.exitIf != ""
    requires !c.IsGluetunSidecar() && SlotOf(c, f, e) && SlotOf(c, f, w) && PriorityOf(w) == PriorityOf(e) + 1
    ensures Unlike(RuleOf(c, f, w), RuleOf(c, f, e))
  {
    hide RuleOf, Unlike;
    Neighbours(c, f, e, w);
    if w.ReturnPath? || w.Ingress? || w.Egress? || w.SidecarEgress? || w.IngressReject? || w.SidecarReject? || w.Backstop? {
      LateUnlike(c, f, e, w);
    } else {
      EarlyUnlike(c, f, e, w);
    }
  }

  lemma LateUnlike(c: Config, f: Family, e: Slot, w: Slot)
    requires c.table >= 256 && (c.kind.Overlay? ==> c.overlayIf != "" && c.exitIf != "")
    requires !c.IsGluetunSidecar() && SlotOf(c, f, e) && SlotOf(c, f, w)
    requires (w.ReturnPath? && e.TunnelMark?) || (w.Ingress? && e.ReturnPath?) || ((w.Egress? || w.SidecarEgress?) && e.Ingress?)
             || ((w.IngressReject? || w.SidecarReject?) && (e.Egress? || e.SidecarEgress?)) || (w.Backstop? && (e.IngressReject? || e.SidecarReject?))
    ensures Unlike(RuleOf(c, f, w), RuleOf(c, f, e))
  {
  }

  lemma EarlyUnlike(c: Config, f: Family, e: Slot, w: Slot)
    requires c.table >= 256 && (c.IsGluetun() ==> c.hostTable >= 256)
    requires c.kind.Overlay? ==> c.overlayIf != "" && c.exitIf != ""
    requires !c.IsGluetunSidecar() && SlotOf(c, f, e) && SlotOf(c, f, w)
    requires (w.MarkReject? && e.MarkHost?) || ((w.Lan? || w.FromTunnel?) && e.MarkReject?) || (w.OverlayMain? && (e.Lan? || e.FromTunnel?))
             || (w.OverlayReject? && e.OverlayMain?) || (w.TunnelMark? && e.OverlayReject?)
             || (w.HostSubnets? && e.GluetunMark?) || (w.KillSwitch? && e.HostSubnets?)
    ensures Unlike(RuleOf(c, f, w), RuleOf(c, f, e))
  {
  }

  /** For every configuration: the copy of an expected rule is neither a duplicate of a rule
      expected one priority earlier, nor can deleting it take that rule, in whatever form the
      kernel reports it. */
  lemma CopyIsApart(c: Config, f: Family, e: Slot, w: Slot, x: Rule)
    requires c.Valid() && !c.IsGluetunSidecar() && SlotOf(c, f, e) && SlotOf(c, f, w)
    requires PriorityOf(w) == PriorityOf(e) + 1 && RuleOf(c, f, w).priority > 0
    requires x.priority == PriorityOf(e) && Items(x) == Items(RuleOf(c, f, e))
    ensures !DeleteMatches(CopyOf(RuleOf(c, f, w)), x)
    ensures Identity(CopyOf(RuleOf(c, f, w))) != Identity(x)
  {
    StandardAndUnlike(c, f, e, w);
    UnlikeApart(RuleOf(c, f, e), RuleOf(c, f, w), x);
  }

  lemma StandardAndUnlike(c: Config, f: Family, e: Slot, w: Slot)
    requires c.Valid() && !c.IsGluetunSidecar() && SlotOf(c, f, e) && SlotOf(c, f, w) && PriorityOf(w) == PriorityOf(e) + 1
    ensures Standard(RuleOf(c, f, e)) && Standard(RuleOf(c, f, w)) && Unlike(RuleOf(c, f, w), RuleOf(c, f, e))
  {
    SlotIsStandard(c, f, e);
    SlotIsStandard(c, f, w);
    SlotsUnlike(c, f, e, w);
  }

  lemma UnlikeApart(e: Rule, w: Rule, x: Rule)
    requires Standard(e) && Standard(w) && Unlike(w, e) && w.priority > 0
    requires Items(x) == Items(e)
    ensures !DeleteMatches(CopyOf(w), x)
    ensures Identity(CopyOf(w)) != Identity(x)
  {
  }
}
