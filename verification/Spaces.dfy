/**
Namespaces that hold the contract's rules and strays in front of them: a rule that stops
everything, the rules a result needs, and a foreign jump past the contract to the main table.
*/
module Spaces {
  import opened Rtnl
  import opened Contract
  import opened OnePriority
  import opened Policy
  import opened Escape
  import opened EscapeLimits
  import opened Marks
  import opened Points
  import opened Classes
  import opened Limit

  predicate NativeExit(c: Config) {
    c.Valid() && c.IsNativeOverlay() && c.exitIf != "lo"
  }

  /** A namespace with these rules of one family, these addresses of its own and an empty exit
      table. */
  function Space(c: Config, f: Family, locals: Pair<seq<Addr>>, rules: seq<Rule>): State {
    var spec := Spec(c, Pair([], []), Pair(false, false), Pair(false, false));
    var bare: Pair<seq<Rule>> := Pair([], []);
    State(spec, bare.With(f, rules), Pair(map[c.table := []], map[c.table := []]), Pair([], []), locals, 5, 3)
  }

  function Main(f: Family): Rule {
    LookupRule(32766, f, TABLE_MAIN)
  }

  /** The rule a comparison deletes first. */
  function Stray(f: Family): Rule {
    RejectRule(9, f)
  }

  function Guard(c: Config, f: Family): Rule {
    RuleOf(c, f, LocalGuard)
  }

  /** The contract's rules behind the guard at 1, no tunnel address being known. */
  function OwnRules(c: Config, f: Family): seq<Rule> {
    (if c.overlay.At(f).Some? then [RuleOf(c, f, FromTunnel(c.overlay.At(f).v))] else [])
    + [RuleOf(c, f, Ingress), RuleOf(c, f, Egress), RuleOf(c, f, IngressReject)]
  }

  /** Somebody's jump to the rule that looks the main table up. */
  function Jump(f: Family): Rule {
    Bare(f, 11, ACT_GOTO, 0).(jump := Some(32766))
  }

  function Tail(c: Config, f: Family): seq<Rule> {
    [Jump(f)] + (OwnRules(c, f) + [Main(f)])
  }

  // ---- what the rules do to a packet ----

  lemma PlainYes(r: Rule, p: Packet)
    requires r.unknown == [] && !r.bad && r.extraFlags == 0 && r.oif == "" && !r.invert && r.iif == ""
    requires r.src.None? && r.dst.None? && r.fwMark.None? && r.fwMask.None? && r.ipProto.None? && r.tos == 0 && r.l3mdev.None?
    ensures Matches(r, p) == Yes
  {
  }

  /** A rule that stops or passes the packet, before others. */
  lemma RejectFirst(s: State, level: Level, r: Rule, rest: seq<Rule>, p: Packet)
    requires r.action == ACT_UNREACHABLE && !Matches(r, p).Maybe?
    ensures SafeFrom(s, level, [r] + rest, p) <==> Matches(r, p).Yes? || SafeFrom(s, level, rest, p)
  {
    assert ([r] + rest)[1..] == rest;
  }

  lemma MainLetsOut(s: State, f: Family, level: Level, p: Packet)
    requires p.f == f && !s.Known(f, TABLE_MAIN)
    ensures !SafeFrom(s, level, [Main(f)], p)
  {
    PlainYes(Main(f), p);
    assert ViaTable(TABLE_MAIN) in LookupPlaces(s, Main(f), p);
  }

  lemma MainIsTarget(c: Config, f: Family)
    requires NativeExit(c)
    ensures var all := OwnRules(c, f) + [Main(f)]; Target(all, 32766) < |all| && all[Target(all, 32766)..] == [Main(f)]
  {
    var all := OwnRules(c, f) + [Main(f)];
    forall r | r in OwnRules(c, f)
      ensures r.priority < 32766
    {
      OwnBland(c, f, r);
    }
    hide OwnRules;
    assert forall i :: 0 <= i < |OwnRules(c, f)| ==> all[i] == OwnRules(c, f)[i] && all[i] in OwnRules(c, f);
    assert all[|OwnRules(c, f)|] == Main(f);
    assert FirstAt(all, 32766) == |OwnRules(c, f)|;
  }

  /** Whatever comes to the jump leaves by the main table, past the contract's rules. */
  lemma TailLetsOut(s: State, c: Config, f: Family, level: Level, p: Packet)
    requires NativeExit(c) && p.f == f && !s.Known(f, TABLE_MAIN)
    ensures !SafeFrom(s, level, Tail(c, f), p)
  {
    hide OwnRules, SafeFrom, Matches;
    PlainYes(Jump(f), p);
    MainIsTarget(c, f);
    JumpsTo(s, level, Jump(f), OwnRules(c, f) + [Main(f)], p);
    MainLetsOut(s, f, level, p);
  }

  /** Overlay traffic does not meet the guard at 1. */
  lemma GuardPasses(s: State, level: Level, c: Config, f: Family, rest: seq<Rule>, p: Packet)
    requires NativeExit(c) && p.iif == c.overlayIf
    ensures SafeFrom(s, level, [Guard(c, f)] + rest, p) <==> SafeFrom(s, level, rest, p)
  {
    GuardMisses(c, f, p);
    hide Matches, Guard;
    assert ([Guard(c, f)] + rest)[1..] == rest;
  }

  lemma GuardMisses(c: Config, f: Family, p: Packet)
    requires NativeExit(c) && p.iif == c.overlayIf
    ensures Matches(Guard(c, f), p).No?
  {
    NoMask(p.mark);
    assert UnknownSelects([], p);
  }

  lemma NoMask(m: nat)
    ensures MaskedEqual(0, m, 0)
  {
  }

  // ---- the rules asked for nothing ----

  /** What the fixed rules of these namespaces have in common. */
  predicate Bland(c: Config, f: Family, r: Rule) {
    && r.unknown == [] && r.fwMark.None? && r.fwMask.None? && r.ipProto.None? && r.tos == 0 && r.l3mdev.None?
    && r.src.None? && (r.dst.Some? ==> r.dst == c.overlay.At(f)) && TameRule(c, r)
  }

  lemma {:induction false} OwnBland(c: Config, f: Family, r: Rule)
    requires NativeExit(c) && r in OwnRules(c, f)
    ensures Bland(c, f, r) && 90 <= r.priority <= 97
  {
    if c.overlay.At(f).Some? && r == RuleOf(c, f, FromTunnel(c.overlay.At(f).v)) {
    } else {
      assert r in [RuleOf(c, f, Ingress), RuleOf(c, f, Egress), RuleOf(c, f, IngressReject)];
    }
  }

  lemma FixedBland(c: Config, f: Family, r: Rule)
    requires NativeExit(c) && (r == Guard(c, f) || r == Stray(f) || r in Tail(c, f))
    ensures Bland(c, f, r) && (r in Tail(c, f) ==> r == Jump(f) || r == Main(f) || r in OwnRules(c, f))
    ensures r in Tail(c, f) ==> 11 <= r.priority <= 32766
  {
    hide OwnRules;
    if r in OwnRules(c, f) {
      OwnBland(c, f, r);
    }
  }

  lemma OwnSorted(c: Config, f: Family)
    ensures SortedByPriority(OwnRules(c, f))
  {
    var rest := [RuleOf(c, f, Ingress), RuleOf(c, f, Egress), RuleOf(c, f, IngressReject)];
    assert rest[0].priority == 95 && rest[1].priority == 96 && rest[2].priority == 97;
    if c.overlay.At(f).Some? {
      var first := RuleOf(c, f, FromTunnel(c.overlay.At(f).v));
      assert first.priority == 90 && OwnRules(c, f) == [first] + rest;
    } else {
      assert OwnRules(c, f) == rest;
    }
    hide RuleOf;
  }

  lemma SortedJoin(a: seq<Rule>, b: seq<Rule>, p: nat)
    requires SortedByPriority(a) && SortedByPriority(b)
    requires (forall r :: r in a ==> r.priority <= p) && forall r :: r in b ==> p <= r.priority
    ensures SortedByPriority(a + b)
  {
    var k := a + b;
    forall i, j | 0 <= i < j < |k|
      ensures k[i].priority <= k[j].priority
    {
      assert i < |a| ==> k[i] == a[i] && a[i] in a;
      assert j >= |a| ==> k[j] == b[j - |a|] && b[j - |a|] in b;
    }
  }

  lemma TailSorted(c: Config, f: Family)
    requires NativeExit(c)
    ensures SortedByPriority(Tail(c, f))
  {
    OwnSorted(c, f);
    forall r | r in OwnRules(c, f)
      ensures 90 <= r.priority <= 97
    {
      OwnBland(c, f, r);
    }
    hide OwnRules;
    SortedJoin(OwnRules(c, f), [Main(f)], 97);
    SortedJoin([Jump(f)], OwnRules(c, f) + [Main(f)], 11);
  }

  lemma SpaceIsSteady(c: Config, f: Family, locals: Pair<seq<Addr>>, rules: seq<Rule>)
    requires NativeExit(c) && SortedByPriority(rules) && forall r :: r in rules ==> TameRule(c, r)
    ensures Steady(Space(c, f, locals, rules), ByTable)
  {
    var s := Space(c, f, locals, rules);
    assert s.rules.At(f) == rules && forall g :: g != f ==> s.rules.At(g) == [];
    assert AllInTable([], c.table);
  }

  lemma SpaceIs(c: Config, f: Family, locals: Pair<seq<Addr>>, rules: seq<Rule>)
    ensures var s := Space(c, f, locals, rules);
            && s.rules.At(f) == rules && s.spec.config == c && s.locals == locals && (forall g :: g != f ==> s.rules.At(g) == [])
            && (forall g :: s.live.At(g) == [] && s.spec.returnPath.At(g) == [] && RoutesOf(s, g) == {})
            && (c.table != TABLE_MAIN ==> forall g :: !s.Known(g, TABLE_MAIN))
  {
  }

  /** Deleting the stray takes the stray. */
  lemma StrayGoes(c: Config, f: Family, locals: Pair<seq<Addr>>, head: seq<Rule>, rules: seq<Rule>)
    requires forall r :: r in head ==> r.priority != Stray(f).priority
    ensures Applied(Space(c, f, locals, head + ([Stray(f)] + rules)), DelRule(Stray(f))) == Space(c, f, locals, head + rules)
  {
    DeletePast(head, Stray(f), rules);
    hide DeleteRule;
  }

  // ---- how many packets such a change is judged on ----

  ghost function OverlaySpan(c: Config, f: Family): set<Interval> {
    if c.overlay.At(f).Some? then {SpanOf(c.overlay.At(f).v)} else {}
  }

  /** The intervals any namespace of the configuration with these local addresses selects on. */
  ghost function BaseSpans(c: Config, f: Family, locals: Pair<seq<Addr>>): set<Interval> {
    HostSpans(locals.At(f)) + OverlaySpan(c, f)
  }

  /** And the ones it tells destinations apart by. */
  ghost function BaseTells(c: Config, f: Family): set<Interval> {
    if c.overlay.At(f).Some? && c.overlay.At(f).v.addr.family == f then OverlaySpan(c, f) else {}
  }

  /** Addresses the intervals do not tell apart the prefix does not. */
  ghost predicate ToldBy(ds: set<Interval>, f: Family, pre: Prefix) {
    forall a: nat, b: nat :: Alike(ds, a, b) ==> (pre.Contains(Addr(f, a)) <==> pre.Contains(Addr(f, b)))
  }

  lemma SpanTells(ds: set<Interval>, f: Family, pre: Prefix)
    requires pre.addr.family == f ==> SpanOf(pre) in ds
    ensures ToldBy(ds, f, pre)
  {
    hide SpanOf;
    forall a: nat, b: nat | Alike(ds, a, b)
      ensures pre.Contains(Addr(f, a)) <==> pre.Contains(Addr(f, b))
    {
      ContainsIs(pre, Addr(f, a));
      ContainsIs(pre, Addr(f, b));
    }
  }

  lemma OverlayTold(c: Config, f: Family, pre: Prefix)
    requires c.overlay.At(f) == Some(pre)
    ensures ToldBy(BaseTells(c, f), f, pre)
  {
    hide SpanOf, ToldBy;
    SpanTells(BaseTells(c, f), f, pre);
  }

  ghost predicate PlainRules(c: Config, f: Family, ds: set<Interval>, k: seq<Rule>) {
    && (forall r :: r in k ==> r.src.None? && r.l3mdev.None? && forall u :: u in r.unknown ==> u.Dscp?)
    && (forall r :: r in k && r.dst.Some? ==> ToldBy(ds, f, r.dst.v))
    && (c.overlay.At(f).Some? ==> ToldBy(ds, f, c.overlay.At(f).v))
  }

  lemma PlainSources(c: Config, f: Family, locals: Pair<seq<Addr>>, k: seq<Rule>, k': seq<Rule>, g: Family)
    requires g == f ==> (forall r :: r in k + k' ==> r.src.None?)
    ensures Finer(LikeSource(g, locals.At(g)), SourceRel(Space(c, f, locals, k), Space(c, f, locals, k'), g))
  {
    SpaceIs(c, f, locals, k);
    SpaceIs(c, f, locals, k');
    var s, s' := Space(c, f, locals, k), Space(c, f, locals, k');
    assert forall r :: r in s.rules.At(g) || r in s'.rules.At(g) ==> r.src.None?;
    SpaceRoutes(c, f, locals, k, g);
    SpaceRoutes(c, f, locals, k', g);
    hide Space;
  }

  lemma SpaceRoutes(c: Config, f: Family, locals: Pair<seq<Addr>>, k: seq<Rule>, g: Family)
    ensures var s := Space(c, f, locals, k); forall t :: t in s.routes.At(g) ==> s.routes.At(g)[t] == []
  {
  }

  lemma PlainTargets(c: Config, f: Family, locals: Pair<seq<Addr>>, k: seq<Rule>, k': seq<Rule>, g: Family, ds: set<Interval>)
    requires PlainRules(c, g, ds, if g == f then k + k' else [])
    ensures Finer(LikeTarget(g, locals.At(g), ds), TargetRel(Space(c, f, locals, k), Space(c, f, locals, k'), g))
  {
    hide Space, Alike, TargetSig, LikeTarget;
    var s, s' := Space(c, f, locals, k), Space(c, f, locals, k');
    forall a: nat, b: nat | LikeTarget(g, locals.At(g), ds)(a, b)
      ensures TargetSig(s, s', g, Addr(g, a), Addr(g, b))
    {
      PlainTarget(c, f, locals, k, k', g, ds, a, b);
    }
  }

  lemma RulesTell(s: State, g: Family, ds: set<Interval>, a: nat, b: nat)
    requires (forall r :: r in s.rules.At(g) && r.dst.Some? ==> ToldBy(ds, g, r.dst.v)) && Alike(ds, a, b)
    requires forall t :: t in s.routes.At(g) ==> s.routes.At(g)[t] == []
    ensures TargetAlike(s, g, Addr(g, a), Addr(g, b))
  {
    hide Alike;
  }

  lemma PlainTarget(c: Config, f: Family, locals: Pair<seq<Addr>>, k: seq<Rule>, k': seq<Rule>, g: Family, ds: set<Interval>, a: nat, b: nat)
    requires PlainRules(c, g, ds, if g == f then k + k' else []) && LikeTarget(g, locals.At(g), ds)(a, b)
    ensures TargetSig(Space(c, f, locals, k), Space(c, f, locals, k'), g, Addr(g, a), Addr(g, b))
  {
    hide Space, Alike, TargetAlike;
    var s, s' := Space(c, f, locals, k), Space(c, f, locals, k');
    SpaceIs(c, f, locals, k);
    SpaceIs(c, f, locals, k');
    assert forall r :: r in s.rules.At(g) || r in s'.rules.At(g) ==> r in if g == f then k + k' else [];
    SpaceRoutes(c, f, locals, k, g);
    SpaceRoutes(c, f, locals, k', g);
    RulesTell(s, g, ds, a, b);
    RulesTell(s', g, ds, a, b);
  }

  lemma PlainCount(c: Config, f: Family, locals: Pair<seq<Addr>>, k: seq<Rule>, k': seq<Rule>, g: Family, ivs: set<Interval>, ds: set<Interval>)
    requires PlainRules(c, g, ds, if g == f then k + k' else [])
    requires BothSpans(Space(c, f, locals, k), Space(c, f, locals, k'), g) == ivs
    ensures var s, s' := Space(c, f, locals, k), Space(c, f, locals, k');
            PointCount(s, s', g) <= LeastPoints(c, g, BothAsks(s, s', g), locals.At(g), ivs, ds)
  {
    SpaceIs(c, f, locals, k);
    SpaceIs(c, f, locals, k');
    var s, s' := Space(c, f, locals, k), Space(c, f, locals, k');
    assert BothRules(s, s', g) == if g == f then k + k' else [];
    hide Space, BothSpans, BothAsks, ToldBy, Finer, LikeSource, LikeTarget, SourceRel, TargetRel, FieldPoints;
    FieldsPlain(s, s', g);
    PlainSources(c, f, locals, k, k', g);
    PlainTargets(c, f, locals, k, k', g, ds);
    CountAtMost(s, s', g, ivs, ds);
  }

  /** The family without rules never comes near the limit. */
  lemma OtherCount(c: Config, f: Family, locals: Pair<seq<Addr>>, k: seq<Rule>, k': seq<Rule>, g: Family)
    requires g != f
    ensures PointCount(Space(c, f, locals, k), Space(c, f, locals, k'), g) <= 600
  {
    var s, s' := Space(c, f, locals, k), Space(c, f, locals, k');
    NoRuleSpans(c, f, locals, k, g);
    NoRuleSpans(c, f, locals, k', g);
    NoRuleAsks(c, f, locals, k, k', g);
    if c.overlay.At(g).Some? {
      OverlayTold(c, g, c.overlay.At(g).v);
    }
    var ivs, ds := BaseSpans(c, g, locals), BaseTells(c, g);
    var i := if c.overlay.At(g).Some? then SpanOf(c.overlay.At(g).v) else Interval(0, 0);
    assert ds <= {i};
    hide Space, SpanOf, Spans, ToldBy, LeastAddresses, TraitPoints, BothAsks, BaseSpans, BaseTells;
    PlainCount(c, f, locals, k, k', g, ivs, ds);
    FewAddresses(g, locals.At(g), ivs, ds, i);
    BareTraits(c, g);
    TimesGrow(TraitPoints(c, g, {}), LeastAddresses(g, locals.At(g), ivs, ds), 20, 15);
    TimesGrow(2, Times(TraitPoints(c, g, {}), LeastAddresses(g, locals.At(g), ivs, ds)), 2, 300);
  }

  lemma NoRuleSpans(c: Config, f: Family, locals: Pair<seq<Addr>>, k: seq<Rule>, g: Family)
    requires g != f
    ensures Spans(Space(c, f, locals, k), g) == BaseSpans(c, g, locals)
  {
    hide SpanOf;
    SpaceIs(c, f, locals, k);
    assert RuleSpans([]) == {} && HostSpans([]) == {};
    assert RouteSpans(Space(c, f, locals, k).routes.At(g)) == {};
  }

  lemma NoRuleAsks(c: Config, f: Family, locals: Pair<seq<Addr>>, k: seq<Rule>, k': seq<Rule>, g: Family)
    requires g != f
    ensures BothAsks(Space(c, f, locals, k), Space(c, f, locals, k'), g) == {}
  {
    SpaceIs(c, f, locals, k);
    SpaceIs(c, f, locals, k');
    assert MarkSels([]) == {} && ProtoSels([]) == {} && TosSels([]) == {};
  }

  // ---- the gate on such a change ----

  lemma KeptNotWorse(s: State, s': State, q: Packet)
    requires SafeFrom(s', ByDevice, s'.rules.At(q.f), q)
    ensures NotWorse(s, s', [q])
  {
    hide Policy.Ends, Protected, SafeFrom;
    HeldIsSafe(s', ByDevice, q);
  }

  lemma SameNotWorse(s: State, s': State, q: Packet)
    requires Walk(s, s.rules.At(q.f), q) == Walk(s', s'.rules.At(q.f), q)
    ensures NotWorse(s, s', [q])
  {
    hide Walk, Protected, Allows;
  }

  /** Only overlay traffic is protected where no tunnel address is known. */
  lemma OnlyOverlay(c: Config, f: Family, locals: Pair<seq<Addr>>, rules: seq<Rule>, q: Packet)
    ensures Protected(Space(c, f, locals, rules), q) <==> q.iif == c.overlayIf
  {
    SpaceIs(c, f, locals, rules);
  }

  lemma OtherFamily(c: Config, f: Family, locals: Pair<seq<Addr>>, rules: seq<Rule>, p: Packet)
    requires p.f != f
    ensures SafeFrom(Space(c, f, locals, rules), ByDevice, Space(c, f, locals, rules).rules.At(p.f), p)
  {
    assert Space(c, f, locals, rules).rules.At(p.f) == [];
  }

  /** A packet from the overlay. */
  function Sent(c: Config, f: Family, x: Traits, dst: nat): Packet {
    Packet(f, c.overlayIf, x.mark, x.proto, Addr(f, 9), Addr(f, dst), x.tos, 0, 0, 0, false)
  }

  lemma SentInRange(c: Config, f: Family, x: Traits, dst: nat)
    requires 0 < dst <= MaxAddr(f) && !IsLoopback(Addr(f, dst))
    ensures InRange(Sent(c, f, x, dst)) && forall s: State :: s.spec.config == c ==> Protected(s, Sent(c, f, x, dst))
  {
    AddressRange(f);
    hide MaxAddr;
    assert forall k :: ValueOf(Sent(c, f, x, dst), k) == 0;
  }
}
