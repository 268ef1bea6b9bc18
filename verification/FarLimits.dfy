/**
The deletion gate's reach in destinations, both ways: it keeps every held packet to one if and
only if that is near what the namespace selects on, or there are too many packets to judge.
*/
module FarLimits {
  import opened Rtnl
  import opened Contract
  import opened Policy
  import opened Escape
  import opened Marks
  import opened Points
  import opened Classes
  import opened Limit
  import opened Spaces
  import opened GateLimits

  ghost function SpansOf(ps: seq<Prefix>): set<Interval> {
    set p | p in ps :: SpanOf(p)
  }

  /** A rule that stops whatever the prefix tells from this destination. */
  function Wall(f: Family, pre: Prefix, a: Addr): Rule {
    RejectRule(10, f).(dst := Some(pre), invert := pre.Contains(a))
  }

  function Walls(f: Family, ps: seq<Prefix>, a: Addr): seq<Rule> {
    if |ps| == 0 then [] else [Wall(f, ps[0], a)] + Walls(f, ps[1..], a)
  }

  predicate Told(ps: seq<Prefix>, a: Addr, b: Addr) {
    exists p :: p in ps && p.Contains(a) != p.Contains(b)
  }

  lemma WallMatches(f: Family, pre: Prefix, a: Addr, p: Packet)
    requires pre.len > 0
    ensures Matches(Wall(f, pre, a), p) == if pre.Contains(p.dst) != pre.Contains(a) then Yes else No
  {
  }

  lemma {:induction false} WallsIff(s: State, level: Level, f: Family, ps: seq<Prefix>, a: Addr, rest: seq<Rule>, p: Packet)
    requires forall pre :: pre in ps ==> pre.len > 0
    ensures SafeFrom(s, level, Walls(f, ps, a) + rest, p) <==> Told(ps, p.dst, a) || SafeFrom(s, level, rest, p)
  {
    if |ps| == 0 {
      assert Walls(f, ps, a) + rest == rest;
    } else {
      var pre, more := ps[0], Walls(f, ps[1..], a) + rest;
      assert Walls(f, ps, a) + rest == [Wall(f, pre, a)] + more;
      WallsIff(s, level, f, ps[1..], a, rest, p);
      WallMatches(f, pre, a, p);
      RejectFirst(s, level, Wall(f, pre, a), more, p);
      hide SafeFrom, Wall, Matches;
      assert Told(ps, p.dst, a) <==> pre.Contains(p.dst) != pre.Contains(a) || Told(ps[1..], p.dst, a) by {
        assert ps == [pre] + ps[1..];
      }
    }
  }

  lemma {:induction false} WallsAre(f: Family, ps: seq<Prefix>, a: Addr, r: Rule)
    requires r in Walls(f, ps, a)
    ensures exists pre :: pre in ps && r == Wall(f, pre, a)
  {
    if r == Wall(f, ps[0], a) {
      assert ps[0] in ps;
    } else {
      WallsAre(f, ps[1..], a, r);
      var pre :| pre in ps[1..] && r == Wall(f, pre, a);
      assert pre in ps;
    }
  }

  lemma {:induction false} WallsHave(f: Family, ps: seq<Prefix>, a: Addr, pre: Prefix)
    requires pre in ps
    ensures Wall(f, pre, a) in Walls(f, ps, a)
  {
    if pre != ps[0] {
      WallsHave(f, ps[1..], a, pre);
    }
  }

  /** The kernel's own rule for local delivery. */
  function LocalRule(f: Family): Rule {
    LookupRule(0, f, TABLE_LOCAL)
  }

  function Walled(c: Config, f: Family, ps: seq<Prefix>, a: Addr): seq<Rule> {
    Walls(f, ps, a) + Tail(c, f)
  }

  function After2(c: Config, f: Family, ps: seq<Prefix>, a: Addr): seq<Rule> {
    [LocalRule(f), Guard(c, f)] + Walled(c, f, ps, a)
  }

  function Before2(c: Config, f: Family, ps: seq<Prefix>, a: Addr): seq<Rule> {
    [LocalRule(f), Guard(c, f)] + ([Stray(f)] + Walled(c, f, ps, a))
  }

  /** Destination prefixes of the family, the overlay's range and the local addresses among them. */
  ghost predicate Targets(c: Config, f: Family, locals: Pair<seq<Addr>>, ps: seq<Prefix>) {
    && (forall pre :: pre in ps ==> pre.len > 0 && pre.addr.family == f)
    && (c.overlay.At(f).Some? ==> c.overlay.At(f).v in ps)
    && (forall a :: a in locals.At(f) ==> a.family == f && Interval(a.n, a.n) in SpansOf(ps))
  }

  lemma LocalBland(c: Config, f: Family)
    ensures Bland(c, f, LocalRule(f))
  {
  }

  /** A rule of one of the two lists. */
  lemma WalledRules(c: Config, f: Family, locals: Pair<seq<Addr>>, ps: seq<Prefix>, a: Addr, r: Rule)
    requires NativeExit(c) && Targets(c, f, locals, ps) && (r in Before2(c, f, ps, a) || r in After2(c, f, ps, a))
    ensures TameRule(c, r) && r.src.None? && r.l3mdev.None? && r.unknown == [] && (r.dst.Some? ==> r.dst.v in ps)
    ensures r.fwMark.None? && r.fwMask.None? && r.ipProto.None? && r.tos == 0
  {
    FixedAre(c, f);
    LocalBland(c, f);
    hide Walls, Tail, Guard, LocalRule;
    if r in Walls(f, ps, a) {
      WallsAre(f, ps, a, r);
    } else {
      assert Bland(c, f, r);
    }
  }

  lemma LocalFirst(f: Family)
    ensures LocalRule(f).priority == 0
  {
  }

  lemma WalledSorted(c: Config, f: Family, ps: seq<Prefix>, a: Addr)
    requires NativeExit(c)
    ensures SortedByPriority(Before2(c, f, ps, a)) && SortedByPriority(After2(c, f, ps, a))
  {
    hide Walls, Tail, Guard, Bland, LocalRule;
    FixedAre(c, f);
    TailSorted(c, f);
    forall r | r in Walls(f, ps, a)
      ensures r.priority == 10
    {
      WallsAre(f, ps, a, r);
    }
    var head := [LocalRule(f), Guard(c, f)];
    LocalFirst(f);
    assert head[0].priority == 0 && head[1].priority == 1;
    SortedJoin(Walls(f, ps, a), Tail(c, f), 10);
    SortedJoin([Stray(f)], Walled(c, f, ps, a), 9);
    SortedJoin(head, [Stray(f)] + Walled(c, f, ps, a), 1);
    SortedJoin(head, Walled(c, f, ps, a), 1);
  }

  lemma TargetSpaces(c: Config, f: Family, locals: Pair<seq<Addr>>, ps: seq<Prefix>, a: Addr)
    requires NativeExit(c) && Targets(c, f, locals, ps)
    ensures var s, s' := Space(c, f, locals, Before2(c, f, ps, a)), Space(c, f, locals, After2(c, f, ps, a));
            Applied(s, DelRule(Stray(f))) == s' && Steady(s, ByTable)
  {
    WalledSorted(c, f, ps, a);
    forall r | r in Before2(c, f, ps, a)
      ensures TameRule(c, r)
    {
      WalledRules(c, f, locals, ps, a, r);
    }
    GuardFirst(c, f);
    hide Walled, Guard, Space, Steady, Applied, SortedByPriority, TameRule, Targets;
    SpaceIsSteady(c, f, locals, Before2(c, f, ps, a));
    StrayGoes(c, f, locals, [LocalRule(f), Guard(c, f)], Walled(c, f, ps, a));
  }

  lemma WallsHold(c: Config, f: Family, ps: seq<Prefix>, a: Addr, pre: Prefix)
    requires pre in ps
    ensures Wall(f, pre, a) in Before2(c, f, ps, a) && Wall(f, pre, a) in After2(c, f, ps, a)
  {
    hide Walls, Tail, Guard, Wall;
    WallsHave(f, ps, a, pre);
  }

  lemma SpaceSpans(c: Config, f: Family, locals: Pair<seq<Addr>>, ps: seq<Prefix>, a: Addr)
    requires NativeExit(c) && Targets(c, f, locals, ps)
    ensures BothSpans(Space(c, f, locals, Before2(c, f, ps, a)), Space(c, f, locals, After2(c, f, ps, a)), f) == SpansOf(ps)
  {
    var k, k' := Before2(c, f, ps, a), After2(c, f, ps, a);
    forall r | r in k || r in k'
      ensures r.src.None? && (r.dst.Some? ==> r.dst.v in ps)
    {
      WalledRules(c, f, locals, ps, a, r);
    }
    forall pre | pre in ps
      ensures (exists r :: r in k && r.dst == Some(pre)) && exists r :: r in k' && r.dst == Some(pre)
    {
      WallsHold(c, f, ps, a, pre);
      assert Wall(f, pre, a).dst == Some(pre);
    }
    hide SpanOf, Before2, After2, Space, Spans;
    RuleSpansAre(ps, k);
    RuleSpansAre(ps, k');
    SpaceParts(c, f, locals, ps, k);
    SpaceParts(c, f, locals, ps, k');
  }

  lemma RuleSpansAre(ps: seq<Prefix>, k: seq<Rule>)
    requires forall r :: r in k ==> r.src.None? && (r.dst.Some? ==> r.dst.v in ps)
    requires forall pre :: pre in ps ==> exists r :: r in k && r.dst == Some(pre)
    ensures RuleSpans(k) == SpansOf(ps)
  {
    hide SpanOf;
    forall pre | pre in ps
      ensures SpanOf(pre) in RuleSpans(k)
    {
      var r :| r in k && r.dst == Some(pre);
      assert SpanOf(r.dst.v) in RuleSpans(k);
    }
  }

  lemma SpaceParts(c: Config, f: Family, locals: Pair<seq<Addr>>, ps: seq<Prefix>, k: seq<Rule>)
    requires Targets(c, f, locals, ps) && RuleSpans(k) == SpansOf(ps)
    ensures Spans(Space(c, f, locals, k), f) == SpansOf(ps)
  {
    hide SpanOf, RuleSpans;
    var s := Space(c, f, locals, k);
    SpaceIs(c, f, locals, k);
    assert RouteSpans(s.routes.At(f)) == {} && HostSpans([]) == {};
    assert HostSpans(locals.At(f)) <= SpansOf(ps);
    if c.overlay.At(f).Some? {
      assert SpanOf(c.overlay.At(f).v) in SpansOf(ps);
    }
  }

  // ---- how many packets such a change is judged on ----

  /** How few packets a change is judged on, in a namespace that tells destinations apart by these
      prefixes. */
  ghost function TargetsAtLeast(c: Config, f: Family, locals: Pair<seq<Addr>>, ps: seq<Prefix>): nat {
    LeastPoints(c, f, {}, locals.At(f), SpansOf(ps), SpansOf(ps))
  }

  lemma WalledPlain(c: Config, f: Family, locals: Pair<seq<Addr>>, ps: seq<Prefix>, a: Addr)
    requires NativeExit(c) && Targets(c, f, locals, ps)
    ensures PlainRules(c, f, SpansOf(ps), Before2(c, f, ps, a) + After2(c, f, ps, a))
  {
    hide Before2, After2, ToldBy, SpanOf;
    forall pre | pre in ps
      ensures ToldBy(SpansOf(ps), f, pre)
    {
      SpanTells(SpansOf(ps), f, pre);
    }
    forall r | r in Before2(c, f, ps, a) + After2(c, f, ps, a)
      ensures r.src.None? && r.l3mdev.None? && r.unknown == [] && (r.dst.Some? ==> r.dst.v in ps)
    {
      WalledRules(c, f, locals, ps, a, r);
    }
  }

  lemma {:induction false} PlainAllAskNothing(rules: seq<Rule>)
    requires forall r :: r in rules ==> r.unknown == [] && r.fwMark.None? && r.fwMask.None? && r.ipProto.None? && r.tos == 0
    ensures Asks(rules, {}) == {}
  {
    assert MarkSels(rules) == {} && ProtoSels(rules) == {} && TosSels(rules) == {};
  }

  lemma WalledAsks(c: Config, f: Family, locals: Pair<seq<Addr>>, ps: seq<Prefix>, a: Addr)
    requires NativeExit(c) && Targets(c, f, locals, ps)
    ensures BothAsks(Space(c, f, locals, Before2(c, f, ps, a)), Space(c, f, locals, After2(c, f, ps, a)), f) == {}
  {
    var k, k' := Before2(c, f, ps, a), After2(c, f, ps, a);
    forall r: Rule | r in k + k'
      ensures r.unknown == [] && r.fwMark.None? && r.fwMask.None? && r.ipProto.None? && r.tos == 0
    {
      WalledRules(c, f, locals, ps, a, r);
    }
    SpaceIs(c, f, locals, k);
    SpaceIs(c, f, locals, k');
    hide Before2, After2, Space, Asks;
    PlainAllAskNothing(k + k');
  }

  lemma TargetCount(c: Config, f: Family, locals: Pair<seq<Addr>>, ps: seq<Prefix>, a: Addr)
    requires NativeExit(c) && Targets(c, f, locals, ps) && TargetsAtLeast(c, f, locals, ps) <= MAX_POINTS
    ensures WithinLimit(Space(c, f, locals, Before2(c, f, ps, a)), Space(c, f, locals, After2(c, f, ps, a)))
  {
    hide Before2, After2, Space, SpansOf, BothSpans, BothAsks, LeastPoints, PointCount, PlainRules, Targets;
    var k, k' := Before2(c, f, ps, a), After2(c, f, ps, a);
    WalledAsks(c, f, locals, ps, a);
    SpaceSpans(c, f, locals, ps, a);
    WalledPlain(c, f, locals, ps, a);
    PlainCount(c, f, locals, k, k', f, SpansOf(ps), SpansOf(ps));
    forall g | g != f
      ensures PointCount(Space(c, f, locals, k), Space(c, f, locals, k'), g) <= MAX_POINTS
    {
      OtherCount(c, f, locals, k, k', g);
    }
  }

  /** The walls tell destinations apart by every prefix. */
  lemma WallsTell(c: Config, f: Family, locals: Pair<seq<Addr>>, ps: seq<Prefix>, a: Addr)
    requires NativeExit(c) && Targets(c, f, locals, ps)
    ensures TellsBy(Space(c, f, locals, Before2(c, f, ps, a)), Space(c, f, locals, After2(c, f, ps, a)), f, SpansOf(ps))
  {
    var s, s' := Space(c, f, locals, Before2(c, f, ps, a)), Space(c, f, locals, After2(c, f, ps, a));
    SpaceIs(c, f, locals, Before2(c, f, ps, a));
    hide Space, Before2, After2, SpanOf;
    forall n: nat, m: nat | TargetSig(s, s', f, Addr(f, n), Addr(f, m))
      ensures Alike(SpansOf(ps), n, m)
    {
      forall pre | pre in ps
        ensures Inside(n, SpanOf(pre)) <==> Inside(m, SpanOf(pre))
      {
        WallsHold(c, f, ps, a, pre);
        assert SameSelect(Wall(f, pre, a).dst, Addr(f, n), Addr(f, m));
        ContainsIs(pre, Addr(f, n));
        ContainsIs(pre, Addr(f, m));
      }
    }
  }

  // ---- the gate ----

  /** A deletion of a namespace that selects on these addresses and tells destinations apart by all
      of them, and a packet to this one. */
  ghost predicate TargetCase(c: Config, locals: Pair<seq<Addr>>, ivs: set<Interval>, a: Addr, s: State, level: Level, req: Request, p: Packet) {
    && s.spec.config == c && s.locals == locals && Steady(s, level) && FamiliesRight(s, a.family) && req.Deletes()
    && BothSpans(s, Applied(s, req), a.family) == ivs && TellsBy(s, Applied(s, req), a.family, ivs) && p.dst == a
    && p.f == a.family && InRange(p) && Represented(s, Applied(s, req), p) && Protected(s, p) && Held(s, level, p)
    && GateApproves(s, Applied(s, req))
  }

  ghost predicate GateKeepsTarget(c: Config, locals: Pair<seq<Addr>>, ivs: set<Interval>, a: Addr) {
    forall s: State, level: Level, req: Request, p: Packet ::
      TargetCase(c, locals, ivs, a, s, level, req, p) ==> Held(Applied(s, req), level, p)
  }

  /** Whatever tells them apart: an approved deletion keeps every held packet to a near destination. */
  lemma NearKept(s: State, level: Level, req: Request, p: Packet)
    requires Steady(s, level) && FamiliesRight(s, p.f) && req.Deletes() && GateApproves(s, Applied(s, req))
    requires InRange(p) && Represented(s, Applied(s, req), p) && Protected(s, p) && Held(s, level, p)
    requires Near(BothSpans(s, Applied(s, req), p.f), p.dst)
    ensures Held(Applied(s, req), level, p)
  {
    hide Steady, GateApproves, Held, Protected, Represented, Near, FamiliesRight, Applied, BothSpans;
    var m := Move(req, true, []);
    assert After(s, m) == Applied(s, req);
    GatedMoveKeepsHeld(s, level, m, p);
  }

  lemma TargetsWithin(c: Config, locals: Pair<seq<Addr>>, ps: seq<Prefix>, a: Addr, s: State, level: Level, req: Request, p: Packet)
    requires TargetCase(c, locals, SpansOf(ps), a, s, level, req, p)
    ensures TargetsAtLeast(c, a.family, locals, ps) <= MAX_POINTS
  {
    hide Steady, JudgedOn, NotWorse, Held, Protected, BothAsks, InRange, FamiliesRight, Applied, BothSpans, TellsBy, PointCount, SpansOf, Represented;
    var f, s' := a.family, Applied(s, req);
    CountAtLeast(s, s', f, SpansOf(ps), SpansOf(ps));
    TraitsGrow(c, f, BothAsks(s, s', f));
    hide TraitPoints, LeastAddresses, Times;
    var few, t, n := TraitPoints(c, f, {}), TraitPoints(c, f, BothAsks(s, s', f)), LeastAddresses(f, locals.At(f), SpansOf(ps), SpansOf(ps));
    TimesGrow(few, n, t, n);
    TimesGrow(2, Times(few, n), 2, Times(t, n));
  }

  lemma NotNearTold(ps: seq<Prefix>, f: Family, a: Addr, d: Addr)
    requires (forall pre :: pre in ps ==> pre.addr.family == f) && a.family == d.family == f
    requires 0 < a.n <= MaxAddr(f) && !IsLoopback(a) && !Near(SpansOf(ps), a)
    requires d.n in CandsOf(SpansOf(ps), f) && d.n != 0 && !IsLoopback(d)
    ensures Told(ps, d, a)
  {
    var ivs := SpansOf(ps);
    NearIff(ivs, a);
    assert Usable(ivs, f, d.n) && !Alike(ivs, a.n, d.n);
    hide CandsOf, Near, SpanOf;
    var i :| i in ivs && (Inside(a.n, i) != Inside(d.n, i));
    var pre :| pre in ps && i == SpanOf(pre);
    ContainsIs(pre, a);
    ContainsIs(pre, d);
  }

  lemma LocalEnds(s: State, f: Family, rest: seq<Rule>, p: Packet)
    requires p.f == f
    ensures AnswersLocally(s, p) ==> Walk(s, [LocalRule(f)] + rest, p) == EndedBy({Local}, ByRule(0, Items(LocalRule(f))))
    ensures !AnswersLocally(s, p) ==> forall level :: SafeFrom(s, level, [LocalRule(f)] + rest, p) <==> SafeFrom(s, level, rest, p)
  {
    PlainYes(LocalRule(f), p);
    assert ([LocalRule(f)] + rest)[1..] == rest;
    hide Items, Walk, SafeFrom;
    LocalOpens(s, f, rest, p);
  }

  lemma LocalOpens(s: State, f: Family, rest: seq<Rule>, p: Packet)
    requires Matches(LocalRule(f), p).Yes? && ([LocalRule(f)] + rest)[1..] == rest
    ensures AnswersLocally(s, p) ==> Walk(s, [LocalRule(f)] + rest, p) == EndedBy({Local}, ByRule(0, Items(LocalRule(f))))
    ensures !AnswersLocally(s, p) ==> forall level :: SafeFrom(s, level, [LocalRule(f)] + rest, p) <==> SafeFrom(s, level, rest, p)
  {
    hide Items, Matches, AnswersLocally;
    var all := [LocalRule(f)] + rest;
    assert all[0] == LocalRule(f);
    assert Walk(s, all, p) == Taken(s, all, p);
    assert LookupPlaces(s, LocalRule(f), p) == if AnswersLocally(s, p) then {Local} else {};
    assert LookupFalls(s, LocalRule(f), p) <==> !AnswersLocally(s, p);
    forall level
      ensures !AnswersLocally(s, p) ==> (SafeFrom(s, level, all, p) <==> SafeFrom(s, level, rest, p))
    {
      assert SafeFrom(s, level, all, p) <==> SafeTaken(s, level, all, p);
    }
  }

  lemma HeadSplits(c: Config, f: Family, rest: seq<Rule>)
    ensures [LocalRule(f), Guard(c, f)] + rest == [LocalRule(f)] + ([Guard(c, f)] + rest)
  {
  }

  /** Overlay traffic that is not for the namespace itself comes to the rules behind. */
  lemma HeadPasses(s: State, level: Level, c: Config, f: Family, rest: seq<Rule>, p: Packet)
    requires NativeExit(c) && p.f == f && p.iif == c.overlayIf && !AnswersLocally(s, p)
    ensures SafeFrom(s, level, [LocalRule(f), Guard(c, f)] + rest, p) <==> SafeFrom(s, level, rest, p)
  {
    hide SafeFrom, AnswersLocally, Guard;
    HeadSplits(c, f, rest);
    LocalEnds(s, f, [Guard(c, f)] + rest, p);
    GuardPasses(s, level, c, f, rest, p);
  }

  /** Traffic for the namespace itself ends the same with and without the stray. */
  lemma LocalSame(c: Config, f: Family, locals: Pair<seq<Addr>>, ps: seq<Prefix>, a: Addr, q: Packet)
    requires q.f == f && AnswersLocally(Space(c, f, locals, After2(c, f, ps, a)), q)
    ensures NotWorse(Space(c, f, locals, Before2(c, f, ps, a)), Space(c, f, locals, After2(c, f, ps, a)), [q])
  {
    var s, s' := Space(c, f, locals, Before2(c, f, ps, a)), Space(c, f, locals, After2(c, f, ps, a));
    SpaceIs(c, f, locals, Before2(c, f, ps, a));
    SpaceIs(c, f, locals, After2(c, f, ps, a));
    hide Space, Walled, Guard, Walk, LocalRule, NotWorse;
    HeadSplits(c, f, Walled(c, f, ps, a));
    HeadSplits(c, f, [Stray(f)] + Walled(c, f, ps, a));
    LocalEnds(s', f, [Guard(c, f)] + Walled(c, f, ps, a), q);
    LocalEnds(s, f, [Guard(c, f)] + ([Stray(f)] + Walled(c, f, ps, a)), q);
    SameNotWorse(s, s', q);
  }

  lemma WallsStop(c: Config, f: Family, locals: Pair<seq<Addr>>, ps: seq<Prefix>, a: Addr, q: Packet)
    requires NativeExit(c) && (forall pre :: pre in ps ==> pre.len > 0) && q.iif == c.overlayIf && q.f == f
    requires Told(ps, q.dst, a) && !AnswersLocally(Space(c, f, locals, After2(c, f, ps, a)), q)
    ensures var s' := Space(c, f, locals, After2(c, f, ps, a)); SafeFrom(s', ByDevice, s'.rules.At(f), q)
  {
    var s' := Space(c, f, locals, After2(c, f, ps, a));
    SpaceIs(c, f, locals, After2(c, f, ps, a));
    hide Space, SafeFrom, Walls, Tail, Guard, AnswersLocally, Told;
    WallsIff(s', ByDevice, f, ps, a, Tail(c, f), q);
    HeadPasses(s', ByDevice, c, f, Walled(c, f, ps, a), q);
  }

  lemma WallsGate(c: Config, f: Family, locals: Pair<seq<Addr>>, ps: seq<Prefix>, a: Addr, q: Packet)
    requires NativeExit(c) && Targets(c, f, locals, ps) && a.family == f && 0 < a.n <= MaxAddr(f) && !IsLoopback(a) && !Near(SpansOf(ps), a)
    requires JudgedOn(Space(c, f, locals, Before2(c, f, ps, a)), Space(c, f, locals, After2(c, f, ps, a)), q)
    ensures NotWorse(Space(c, f, locals, Before2(c, f, ps, a)), Space(c, f, locals, After2(c, f, ps, a)), [q])
  {
    var s, s' := Space(c, f, locals, Before2(c, f, ps, a)), Space(c, f, locals, After2(c, f, ps, a));
    hide Near, CandsOf, JudgedTraits, JudgedSource, BothSpans, SafeFrom, Walled, Space, Policy.Ends, Allows, Before2, After2, MaxAddr;
    SpaceSpans(c, f, locals, ps, a);
    OnlyOverlay(c, f, locals, After2(c, f, ps, a), q);
    hide Protected;
    if q.iif == c.overlayIf {
      if q.f != f {
        OtherFamily(c, f, locals, After2(c, f, ps, a), q);
        KeptNotWorse(s, s', q);
      } else if AnswersLocally(s', q) {
        LocalSame(c, f, locals, ps, a, q);
      } else {
        NotNearTold(ps, f, a, q.dst);
        WallsStop(c, f, locals, ps, a, q);
        KeptNotWorse(s, s', q);
      }
    }
  }

  lemma AskNothingCovers(c: Config, f: Family, x: Traits)
    ensures Covered(c, f, {}, x)
  {
    assert 0 in MarkCands(c, {}) && MarkAlike({}, 0, x.mark);
    assert 6 in Protos({}, f) && ProtoAlike({}, 6, x.proto);
    assert 0 in Toses({}) && TosAlike({}, 0, x.tos);
  }

  /** A local address is near itself. */
  lemma LocalIsNear(c: Config, f: Family, locals: Pair<seq<Addr>>, ps: seq<Prefix>, a: Addr)
    requires Targets(c, f, locals, ps) && a in locals.At(f) && a.n <= MaxAddr(f)
    ensures Near(SpansOf(ps), a)
  {
    hide SpanOf, MaxAddr;
    CutEnds(SpansOf(ps), MaxAddr(f), Interval(a.n, a.n));
    assert a.n in CandsOf(SpansOf(ps), f);
  }

  /** A packet to the destination: stopped by the stray, out once that is gone. */
  lemma TargetEnds(c: Config, f: Family, locals: Pair<seq<Addr>>, ps: seq<Prefix>, a: Addr, p: Packet)
    requires NativeExit(c) && (forall pre :: pre in ps ==> pre.len > 0) && p.f == f && p.iif == c.overlayIf && p.dst == a
    requires a !in locals.At(f) && !IsLoopback(a)
    ensures Held(Space(c, f, locals, Before2(c, f, ps, a)), ByTable, p) && !Held(Space(c, f, locals, After2(c, f, ps, a)), ByTable, p)
  {
    var s, s' := Space(c, f, locals, Before2(c, f, ps, a)), Space(c, f, locals, After2(c, f, ps, a));
    SpaceIs(c, f, locals, Before2(c, f, ps, a));
    SpaceIs(c, f, locals, After2(c, f, ps, a));
    PlainYes(Stray(f), p);
    NotToldSelf(ps, a);
    hide SafeFrom, Held, Walls, Tail, Guard, Space, Matches, IsLoopback, Told;
    assert !AnswersLocally(s, p) && !AnswersLocally(s', p);
    HeldIsSafe(s, ByTable, p);
    HeldIsSafe(s', ByTable, p);
    HeadPasses(s, ByTable, c, f, [Stray(f)] + Walled(c, f, ps, a), p);
    HeadPasses(s', ByTable, c, f, Walled(c, f, ps, a), p);
    RejectFirst(s, ByTable, Stray(f), Walled(c, f, ps, a), p);
    WallsIff(s', ByTable, f, ps, a, Tail(c, f), p);
    TailLetsOut(s', c, f, ByTable, p);
  }

  lemma WalledGate(c: Config, f: Family, locals: Pair<seq<Addr>>, ps: seq<Prefix>, a: Addr)
    requires NativeExit(c) && Targets(c, f, locals, ps) && TargetsAtLeast(c, f, locals, ps) <= MAX_POINTS
    requires a.family == f && 0 < a.n <= MaxAddr(f) && !IsLoopback(a) && !Near(SpansOf(ps), a)
    ensures GateApproves(Space(c, f, locals, Before2(c, f, ps, a)), Space(c, f, locals, After2(c, f, ps, a)))
  {
    hide JudgedOn, NotWorse, Space, Before2, After2, WithinLimit, TargetsAtLeast, MaxAddr, Near, IsLoopback, Targets;
    var s, s' := Space(c, f, locals, Before2(c, f, ps, a)), Space(c, f, locals, After2(c, f, ps, a));
    TargetCount(c, f, locals, ps, a);
    forall q | JudgedOn(s, s', q)
      ensures NotWorse(s, s', [q])
    {
      WallsGate(c, f, locals, ps, a, q);
    }
  }

  /** The packet sent to it. */
  lemma FarSent(c: Config, f: Family, locals: Pair<seq<Addr>>, ps: seq<Prefix>, a: Addr)
    requires NativeExit(c) && Targets(c, f, locals, ps)
    requires a.family == f && 0 < a.n <= MaxAddr(f) && !IsLoopback(a) && !Near(SpansOf(ps), a)
    ensures var s, s' := Space(c, f, locals, Before2(c, f, ps, a)), Space(c, f, locals, After2(c, f, ps, a));
            var p := Sent(c, f, Traits(0, 17, 0), a.n);
            && p.dst == a && p.f == f && InRange(p) && Protected(s, p) && Represented(s, s', p)
            && Held(s, ByTable, p) && !Held(s', ByTable, p)
  {
    var p := Sent(c, f, Traits(0, 17, 0), a.n);
    assert p.dst == a && p.f == f && p.iif == c.overlayIf;
    hide Held, Space, Before2, After2, MaxAddr, Near, Sent, Protected, InRange, BothAsks, IsLoopback, Covered;
    if a in locals.At(f) {
      LocalIsNear(c, f, locals, ps, a);
    }
    SpaceIs(c, f, locals, Before2(c, f, ps, a));
    SentInRange(c, f, Traits(0, 17, 0), a.n);
    WalledAsks(c, f, locals, ps, a);
    AskNothingCovers(c, f, TraitsOf(p));
    TargetEnds(c, f, locals, ps, a, p);
  }

  /** Every list of prefixes, every destination that is not near them, and not too many packets to
      judge: such a namespace, deletion and packet. */
  lemma FarEscapes(c: Config, f: Family, locals: Pair<seq<Addr>>, ps: seq<Prefix>, a: Addr)
    requires NativeExit(c) && Targets(c, f, locals, ps) && TargetsAtLeast(c, f, locals, ps) <= MAX_POINTS
    requires a.family == f && 0 < a.n <= MaxAddr(f) && !IsLoopback(a) && !Near(SpansOf(ps), a)
    ensures var s := Space(c, f, locals, Before2(c, f, ps, a));
            var p := Sent(c, f, Traits(0, 17, 0), a.n);
            && TargetCase(c, locals, SpansOf(ps), a, s, ByTable, DelRule(Stray(f)), p)
            && !Held(Applied(s, DelRule(Stray(f))), ByTable, p)
  {
    hide GateApproves, Held, Steady, BothSpans, Applied, Space, Before2, After2, TellsBy, TargetsAtLeast, MaxAddr, Near, Sent, Protected, InRange, Represented, IsLoopback, SpansOf, NativeExit, Stray;
    SpaceIs(c, f, locals, Before2(c, f, ps, a));
    TargetSpaces(c, f, locals, ps, a);
    SpaceSpans(c, f, locals, ps, a);
    WallsTell(c, f, locals, ps, a);
    WalledGate(c, f, locals, ps, a);
    FarSent(c, f, locals, ps, a);
  }

  lemma NotToldSelf(ps: seq<Prefix>, a: Addr)
    ensures !Told(ps, a, a)
  {
  }

  /** The gate keeps every held packet to a destination, in every namespace that selects on these
      prefixes and tells destinations apart by them, if and only if the destination is near them
      or a change there has more packets to judge than the limit. */
  lemma TargetIff(c: Config, f: Family, locals: Pair<seq<Addr>>, ps: seq<Prefix>, a: Addr)
    requires NativeExit(c) && Targets(c, f, locals, ps) && a.family == f && 0 < a.n <= MaxAddr(f) && !IsLoopback(a)
    ensures GateKeepsTarget(c, locals, SpansOf(ps), a) <==>
            Near(SpansOf(ps), a) || TargetsAtLeast(c, f, locals, ps) > MAX_POINTS
  {
    hide Near, Held, Applied, MaxAddr, SpansOf, TargetsAtLeast, Steady, GateApproves, Protected, Represented, BothSpans, TellsBy, Targets;
    if Near(SpansOf(ps), a) || TargetsAtLeast(c, f, locals, ps) > MAX_POINTS {
      forall s: State, level: Level, req: Request, p: Packet | TargetCase(c, locals, SpansOf(ps), a, s, level, req, p)
        ensures Held(Applied(s, req), level, p)
      {
        TargetsWithin(c, locals, ps, a, s, level, req, p);
        NearKept(s, level, req, p);
      }
    } else {
      FarEscapes(c, f, locals, ps, a);
    }
  }

  predicate InSome(ivs: set<Interval>, n: nat) {
    exists i :: i in ivs && Inside(n, i)
  }

  /** Prefixes that cover every address below the loopback range and nothing from it on leave
      every address above that range far. */
  lemma AboveIsFar(ivs: set<Interval>, a: Addr)
    requires a.family.V4? && 0x8000_0000 <= a.n <= MaxAddr(V4)
    requires forall i :: i in ivs ==> i.lo <= i.hi < LOOPBACK_FIRST
    requires forall n: nat :: 0 < n < LOOPBACK_FIRST ==> InSome(ivs, n)
    ensures !Near(ivs, a)
  {
    AddressRange(V4);
    assert MaxAddr(V4) >= LOOPBACK_FIRST;
    hide MaxAddr;
    forall n | n in CandsOf(ivs, V4)
      ensures n <= LOOPBACK_FIRST
    {
    }
    forall n: nat | Usable(ivs, V4, n)
      ensures !Alike(ivs, MaxAddr(V4), n)
    {
      assert n < LOOPBACK_FIRST && InSome(ivs, n);
      var i :| i in ivs && Inside(n, i);
      assert !Inside(MaxAddr(V4), i);
    }
  }

  const BELOW_LOOPBACK: seq<Prefix> := [
    Prefix(Addr(V4, 0), 2), Prefix(Addr(V4, 0x4000_0000), 3), Prefix(Addr(V4, 0x6000_0000), 4),
    Prefix(Addr(V4, 0x7000_0000), 5), Prefix(Addr(V4, 0x7800_0000), 6), Prefix(Addr(V4, 0x7c00_0000), 7),
    Prefix(Addr(V4, 0x7e00_0000), 8)
  ]

  lemma {:induction false} FloorExact(k: nat, size: nat)
    requires size >= 1
    ensures Floor(k * size, size) == k * size
  {
    if k > 0 {
      FloorExact(k - 1, size);
      assert k * size == (k - 1) * size + size;
    }
  }

  lemma SpanIs(n: nat, len: nat, k: nat, size: nat)
    requires len <= 32 && Pow2(32 - len) == size && n == k * size
    ensures SpanOf(Prefix(Addr(V4, n), len)) == Interval(n, n + size - 1)
  {
    hide Floor, Pow2;
    FloorExact(k, size);
  }

  lemma Powers()
    ensures Pow2(24) == 0x100_0000 && Pow2(25) == 0x200_0000 && Pow2(26) == 0x400_0000 && Pow2(27) == 0x800_0000
    ensures Pow2(28) == 0x1000_0000 && Pow2(29) == 0x2000_0000 && Pow2(30) == 0x4000_0000
  {
    assert Pow2(4) == 16;
    PowTwice(24);
    PowTwice(25);
    PowTwice(26);
    PowTwice(27);
    PowTwice(28);
    PowTwice(29);
    hide Pow2;
    PowDouble(4, 16);
    PowDouble(8, 0x100);
    PowSum(16, 8);
  }

  lemma PowTwice(k: nat)
    ensures Pow2(k + 1) == 2 * Pow2(k)
  {
  }

  /** Where the seven prefixes start, and where the next one does. */
  function BelowStart(j: nat): nat {
    match j
    case 0 => 0 case 1 => 0x4000_0000 case 2 => 0x6000_0000 case 3 => 0x7000_0000
    case 4 => 0x7800_0000 case 5 => 0x7c00_0000 case 6 => 0x7e00_0000 case _ => 0x7f00_0000
  }

  lemma BelowSpan(j: nat)
    requires j < 7
    ensures SpanOf(BELOW_LOOPBACK[j]) == Interval(BelowStart(j), BelowStart(j + 1) - 1)
  {
    Powers();
    hide SpanOf, Pow2;
    match j
    case 0 => SpanIs(0, 2, 0, 0x4000_0000);
    case 1 => SpanIs(0x4000_0000, 3, 2, 0x2000_0000);
    case 2 => SpanIs(0x6000_0000, 4, 6, 0x1000_0000);
    case 3 => SpanIs(0x7000_0000, 5, 14, 0x800_0000);
    case 4 => SpanIs(0x7800_0000, 6, 30, 0x400_0000);
    case 5 => SpanIs(0x7c00_0000, 7, 62, 0x200_0000);
    case _ => SpanIs(0x7e00_0000, 8, 126, 0x100_0000);
  }

  /** With rules for these seven prefixes, every address from 128.0.0.0 on is far. */
  lemma BelowLeavesFar(a: Addr)
    requires a.family.V4? && 0x8000_0000 <= a.n <= MaxAddr(V4)
    ensures !Near(SpansOf(BELOW_LOOPBACK), a)
  {
    hide MaxAddr, Near, SpanOf;
    var ivs := SpansOf(BELOW_LOOPBACK);
    forall i | i in ivs
      ensures i.lo <= i.hi < LOOPBACK_FIRST
    {
      var j :| 0 <= j < 7 && i == SpanOf(BELOW_LOOPBACK[j]);
      BelowSpan(j);
    }
    forall n: nat | 0 < n < LOOPBACK_FIRST
      ensures InSome(ivs, n)
    {
      var j := if n < 0x4000_0000 then 0 else if n < 0x6000_0000 then 1 else if n < 0x7000_0000 then 2
               else if n < 0x7800_0000 then 3 else if n < 0x7c00_0000 then 4 else if n < 0x7e00_0000 then 5 else 6;
      BelowSpan(j);
      assert BELOW_LOOPBACK[j] in BELOW_LOOPBACK;
      assert SpanOf(BELOW_LOOPBACK[j]) in ivs && Inside(n, SpanOf(BELOW_LOOPBACK[j]));
    }
    AboveIsFar(ivs, a);
  }
}
