/**
The deletion gate's reach, both ways: it keeps every held packet with given traits, whatever the
namespace, if and only if its judged packets cover them or there are too many of them to judge.
Otherwise a namespace with the same selectors, the contract's rules in it, has a stray rule whose
deletion the gate approves and a packet that then escapes.
*/
module GateLimits {
  import opened Rtnl
  import opened Contract
  import opened Policy
  import opened Escape
  import opened Marks
  import opened Points
  import opened Classes
  import opened Limit
  import opened Spaces

  // ---- marks, protocols and types of service ----

  function SetOf(list: seq<Sel>): set<Sel> {
    set sel | sel in list
  }

  /** A rule with one selector that stops whatever the selector tells from these traits. */
  function Block(f: Family, sel: Sel, x: Traits): Rule {
    var r := RejectRule(10, f).(invert := Picks(sel, x));
    match sel
    case MarkSel(mark, mask) => r.(fwMark := Some(mark), fwMask := Some(mask))
    case ProtoSel(proto) => r.(ipProto := Some(proto))
    case TosSel(tos) => r.(tos := tos)
    case DscpSel(dscp) => r.(unknown := [Dscp(dscp)])
  }

  function Blocks(f: Family, list: seq<Sel>, x: Traits): seq<Rule> {
    if |list| == 0 then [] else [Block(f, list[0], x)] + Blocks(f, list[1..], x)
  }

  lemma BlockMatches(f: Family, sel: Sel, x: Traits, p: Packet)
    requires Real(sel)
    ensures Matches(Block(f, sel, x), p) == if Picks(sel, TraitsOf(p)) != Picks(sel, x) then Yes else No
  {
    hide MaskedEqual;
    var r := Block(f, sel, x);
    assert MaskedEqual(0, p.mark, 0) by { NoMask(p.mark); }
    if sel.DscpSel? {
      assert r.unknown == [Dscp(sel.dscp)] && Counts(r.unknown, 0);
      assert UnknownSelects(r.unknown, p) <==> RawSelects(r.unknown[0], p);
    }
    assert Accepts(r, p) <==> Picks(sel, TraitsOf(p));
  }

  /** Past the blocks go exactly the packets no selector tells from these traits. */
  lemma {:induction false} BlocksIff(s: State, level: Level, f: Family, list: seq<Sel>, x: Traits, rest: seq<Rule>, p: Packet)
    requires forall sel :: sel in list ==> Real(sel)
    ensures SafeFrom(s, level, Blocks(f, list, x) + rest, p) <==>
            !SameTraits(SetOf(list), TraitsOf(p), x) || SafeFrom(s, level, rest, p)
  {
    if |list| == 0 {
      assert Blocks(f, list, x) + rest == rest;
    } else {
      var sel, more := list[0], Blocks(f, list[1..], x) + rest;
      assert Blocks(f, list, x) + rest == [Block(f, sel, x)] + more;
      BlocksIff(s, level, f, list[1..], x, rest, p);
      BlockMatches(f, sel, x, p);
      RejectFirst(s, level, Block(f, sel, x), more, p);
      assert SetOf(list) == {sel} + SetOf(list[1..]);
      hide SafeFrom, Block, Matches, Picks;
    }
  }

  lemma {:induction false} BlocksAre(f: Family, list: seq<Sel>, x: Traits, r: Rule)
    requires r in Blocks(f, list, x)
    ensures r.priority == 10 && r.action == ACT_UNREACHABLE && r.src.None? && r.dst.None? && r.l3mdev.None?
    ensures forall u :: u in r.unknown ==> u.Dscp?
  {
    hide Picks;
    if r != Block(f, list[0], x) {
      BlocksAre(f, list[1..], x, r);
    }
  }

  lemma AsksConcat(a: seq<Rule>, b: seq<Rule>)
    ensures Asks(a + b, {}) == Asks(a, {}) + Asks(b, {})
  {
    hide Counts;
    assert MarkSels(a + b) == MarkSels(a) + MarkSels(b);
    assert ProtoSels(a + b) == ProtoSels(a) + ProtoSels(b);
    assert TosSels(a + b) == TosSels(a) + TosSels(b);
    hide MarkSels, ProtoSels, TosSels;
  }

  lemma BlandAskNothing(c: Config, f: Family, rules: seq<Rule>)
    requires forall r :: r in rules ==> Bland(c, f, r)
    ensures Asks(rules, {}) == {}
  {
    assert MarkSels(rules) == {} && ProtoSels(rules) == {} && TosSels(rules) == {};
  }

  lemma BlockAsks(f: Family, sel: Sel, x: Traits)
    requires Real(sel)
    ensures Asks([Block(f, sel, x)], {}) == {sel}
  {
    hide Picks;
    var r := Block(f, sel, x);
    assert r in [r];
    assert sel.DscpSel? ==> |r.unknown| == 1 && Counts(r.unknown, 0) && r.unknown[0] == Dscp(sel.dscp);
    assert MarkSels([r]) == if sel.MarkSel? then {sel} else {};
    assert ProtoSels([r]) == if sel.ProtoSel? then {sel} else {};
    assert TosSels([r]) == if sel.TosSel? || sel.DscpSel? then {sel} else {} by {
      if sel.DscpSel? {
        assert DscpSel(r.unknown[0].value) in TosSels([r]);
      } else if sel.TosSel? {
        assert TosSel(r.tos) in TosSels([r]);
      }
    }
  }

  lemma {:induction false} BlocksAsk(f: Family, list: seq<Sel>, x: Traits)
    requires forall sel :: sel in list ==> Real(sel)
    ensures Asks(Blocks(f, list, x), {}) == SetOf(list)
  {
    if |list| == 0 {
      assert MarkSels([]) == {} && ProtoSels([]) == {} && TosSels([]) == {};
    } else {
      BlocksAsk(f, list[1..], x);
      BlockAsks(f, list[0], x);
      hide Asks, Block;
      AsksConcat([Block(f, list[0], x)], Blocks(f, list[1..], x));
      assert SetOf(list) == {list[0]} + SetOf(list[1..]);
    }
  }

  /** The contract's rules, and between them the blocks and the jump. */
  function After1(c: Config, f: Family, list: seq<Sel>, x: Traits): seq<Rule> {
    [Guard(c, f)] + (Blocks(f, list, x) + Tail(c, f))
  }

  function Before1(c: Config, f: Family, list: seq<Sel>, x: Traits): seq<Rule> {
    [Guard(c, f)] + ([Stray(f)] + (Blocks(f, list, x) + Tail(c, f)))
  }

  lemma FixedAre(c: Config, f: Family)
    requires NativeExit(c)
    ensures Bland(c, f, Guard(c, f)) && Bland(c, f, Stray(f)) && Guard(c, f).priority == 1
    ensures forall r :: r in Tail(c, f) ==> Bland(c, f, r) && 11 <= r.priority
  {
    hide Bland, Tail;
    FixedBland(c, f, Guard(c, f));
    FixedBland(c, f, Stray(f));
    forall r | r in Tail(c, f)
      ensures Bland(c, f, r) && 11 <= r.priority
    {
      FixedBland(c, f, r);
    }
  }

  /** A rule of one of the two lists. */
  lemma TraitRules(c: Config, f: Family, list: seq<Sel>, x: Traits, r: Rule)
    requires NativeExit(c) && (r in Before1(c, f, list, x) || r in After1(c, f, list, x))
    ensures Bland(c, f, r) || r in Blocks(f, list, x)
    ensures TameRule(c, r) && r.src.None? && r.l3mdev.None? && (r.dst.Some? ==> r.dst == c.overlay.At(f)) && forall u :: u in r.unknown ==> u.Dscp?
  {
    FixedAre(c, f);
    hide Blocks, Tail, Guard, Stray;
    if r in Blocks(f, list, x) {
      BlocksAre(f, list, x, r);
    }
  }

  lemma TraitSorted(c: Config, f: Family, list: seq<Sel>, x: Traits)
    requires NativeExit(c)
    ensures SortedByPriority(Before1(c, f, list, x)) && SortedByPriority(After1(c, f, list, x))
  {
    hide Blocks, Tail, Guard, Bland;
    FixedAre(c, f);
    TailSorted(c, f);
    forall r | r in Blocks(f, list, x)
      ensures r.priority == 10
    {
      BlocksAre(f, list, x, r);
    }
    var rest := Blocks(f, list, x) + Tail(c, f);
    SortedJoin(Blocks(f, list, x), Tail(c, f), 10);
    SortedJoin([Stray(f)], rest, 9);
    SortedJoin([Guard(c, f)], [Stray(f)] + rest, 1);
    SortedJoin([Guard(c, f)], rest, 1);
  }

  lemma TraitSpaces(c: Config, f: Family, locals: Pair<seq<Addr>>, list: seq<Sel>, x: Traits)
    requires NativeExit(c)
    ensures var s, s' := Space(c, f, locals, Before1(c, f, list, x)), Space(c, f, locals, After1(c, f, list, x));
            Applied(s, DelRule(Stray(f))) == s' && Steady(s, ByTable)
  {
    TraitSorted(c, f, list, x);
    forall r | r in Before1(c, f, list, x)
      ensures TameRule(c, r)
    {
      TraitRules(c, f, list, x, r);
    }
    hide Blocks, Tail, Guard, Space, Steady, Applied, SortedByPriority, TameRule;
    SpaceIsSteady(c, f, locals, Before1(c, f, list, x));
    GuardFirst(c, f);
    StrayGoes(c, f, locals, [Guard(c, f)], Blocks(f, list, x) + Tail(c, f));
  }

  lemma GuardFirst(c: Config, f: Family)
    ensures Guard(c, f).priority == 1
  {
  }

  lemma SpaceAsks(c: Config, f: Family, locals: Pair<seq<Addr>>, list: seq<Sel>, x: Traits)
    requires NativeExit(c) && forall sel :: sel in list ==> Real(sel)
    ensures BothAsks(Space(c, f, locals, Before1(c, f, list, x)), Space(c, f, locals, After1(c, f, list, x)), f) == SetOf(list)
  {
    var k, k' := Before1(c, f, list, x), After1(c, f, list, x);
    var rest := Blocks(f, list, x) + Tail(c, f);
    FixedAre(c, f);
    SpaceIs(c, f, locals, k);
    SpaceIs(c, f, locals, k');
    BlocksAsk(f, list, x);
    hide Asks, Blocks, Space, Stray, Tail, Guard, Bland;
    BlandAskNothing(c, f, Tail(c, f));
    BlandAskNothing(c, f, [Stray(f)]);
    BlandAskNothing(c, f, [Guard(c, f)]);
    AsksConcat(Blocks(f, list, x), Tail(c, f));
    AsksConcat([Stray(f)], rest);
    AsksConcat([Guard(c, f)], [Stray(f)] + rest);
    AsksConcat([Guard(c, f)], rest);
    AsksConcat(k, k');
  }

  /** The rules select on no address but the overlay's. */
  lemma TraitSpans(c: Config, f: Family, locals: Pair<seq<Addr>>, k: seq<Rule>)
    requires forall r :: r in k ==> r.src.None? && (r.dst.Some? ==> r.dst == c.overlay.At(f))
    ensures Spans(Space(c, f, locals, k), f) == BaseSpans(c, f, locals)
  {
    hide SpanOf;
    SpaceIs(c, f, locals, k);
    assert HostSpans([]) == {} && RouteSpans(Space(c, f, locals, k).routes.At(f)) == {};
    assert RuleSpans(k) <= OverlaySpan(c, f);
  }

  /** How few packets a change is judged on, in a namespace with these selectors. */
  ghost function TraitsAtLeast(c: Config, f: Family, locals: Pair<seq<Addr>>, sels: set<Sel>): nat {
    LeastPoints(c, f, sels, locals.At(f), BaseSpans(c, f, locals), BaseTells(c, f))
  }

  lemma TraitPlain(c: Config, f: Family, list: seq<Sel>, x: Traits)
    requires NativeExit(c)
    ensures PlainRules(c, f, BaseTells(c, f), Before1(c, f, list, x) + After1(c, f, list, x))
  {
    hide Before1, After1, BaseTells, ToldBy;
    if c.overlay.At(f).Some? {
      OverlayTold(c, f, c.overlay.At(f).v);
    }
    forall r | r in Before1(c, f, list, x) + After1(c, f, list, x)
      ensures r.src.None? && r.l3mdev.None? && (r.dst.Some? ==> r.dst == c.overlay.At(f)) && forall u :: u in r.unknown ==> u.Dscp?
    {
      TraitRules(c, f, list, x, r);
    }
  }

  lemma TraitBase(c: Config, f: Family, locals: Pair<seq<Addr>>, list: seq<Sel>, x: Traits)
    requires NativeExit(c)
    ensures BothSpans(Space(c, f, locals, Before1(c, f, list, x)), Space(c, f, locals, After1(c, f, list, x)), f) == BaseSpans(c, f, locals)
  {
    hide Before1, After1, BaseSpans, Spans, Space;
    forall r | r in Before1(c, f, list, x) || r in After1(c, f, list, x)
      ensures r.src.None? && (r.dst.Some? ==> r.dst == c.overlay.At(f))
    {
      TraitRules(c, f, list, x, r);
    }
    TraitSpans(c, f, locals, Before1(c, f, list, x));
    TraitSpans(c, f, locals, After1(c, f, list, x));
  }

  lemma TraitCount(c: Config, f: Family, locals: Pair<seq<Addr>>, list: seq<Sel>, x: Traits)
    requires NativeExit(c) && forall sel :: sel in list ==> Real(sel)
    requires TraitsAtLeast(c, f, locals, SetOf(list)) <= MAX_POINTS
    ensures WithinLimit(Space(c, f, locals, Before1(c, f, list, x)), Space(c, f, locals, After1(c, f, list, x)))
  {
    hide Before1, After1, Space, BaseSpans, BaseTells, BothSpans, BothAsks, LeastPoints, PointCount, PlainRules, SetOf;
    var k, k' := Before1(c, f, list, x), After1(c, f, list, x);
    SpaceAsks(c, f, locals, list, x);
    TraitBase(c, f, locals, list, x);
    TraitPlain(c, f, list, x);
    PlainCount(c, f, locals, k, k', f, BaseSpans(c, f, locals), BaseTells(c, f));
    forall g | g != f
      ensures PointCount(Space(c, f, locals, k), Space(c, f, locals, k'), g) <= MAX_POINTS
    {
      OtherCount(c, f, locals, k, k', g);
    }
  }

  /** A deletion of a namespace with these selectors, and a packet with these traits, judged. */
  ghost predicate TraitCase(c: Config, f: Family, locals: Pair<seq<Addr>>, sels: set<Sel>, x: Traits, s: State, level: Level, req: Request, p: Packet) {
    && s.spec.config == c && s.locals == locals && Steady(s, level) && FamiliesRight(s, f) && req.Deletes()
    && BothAsks(s, Applied(s, req), f) == sels && TraitsOf(p) == x
    && p.f == f && InRange(p) && Reached(s, Applied(s, req), p.dst) && Protected(s, p) && Held(s, level, p)
    && GateApproves(s, Applied(s, req))
  }

  /** In every namespace with these selectors and local addresses the gate keeps every held packet
      with these traits. */
  ghost predicate GateKeepsTraits(c: Config, f: Family, locals: Pair<seq<Addr>>, sels: set<Sel>, x: Traits) {
    forall s: State, level: Level, req: Request, p: Packet ::
      TraitCase(c, f, locals, sels, x, s, level, req, p) ==> Held(Applied(s, req), level, p)
  }

  lemma CoveredKept(c: Config, f: Family, locals: Pair<seq<Addr>>, sels: set<Sel>, x: Traits, s: State, level: Level, req: Request, p: Packet)
    requires Covered(c, f, sels, x) && TraitCase(c, f, locals, sels, x, s, level, req, p)
    ensures Held(Applied(s, req), level, p)
  {
    hide Steady, GateApproves, Held, Protected, Covered, BothAsks, Reached, InRange, FamiliesRight, Applied;
    var m := Move(req, true, []);
    assert After(s, m) == Applied(s, req);
    GatedMoveKeepsHeld(s, level, m, p);
  }

  /** Every namespace of the configuration selects on the overlay's range and on its own addresses. */
  lemma BaseSelected(s: State, s': State, f: Family)
    ensures BaseSpans(s.spec.config, f, s.locals) <= BothSpans(s, s', f) && TellsBy(s, s', f, BaseTells(s.spec.config, f))
  {
    var c := s.spec.config;
    hide SpanOf, RuleSpans, RouteSpans, TargetAlike;
    forall a: nat, b: nat | TargetSig(s, s', f, Addr(f, a), Addr(f, b))
      ensures Alike(BaseTells(c, f), a, b)
    {
      if BaseTells(c, f) != {} {
        ContainsIs(c.overlay.At(f).v, Addr(f, a));
        ContainsIs(c.overlay.At(f).v, Addr(f, b));
      }
    }
  }

  /** An approved change is judged on that many packets or more: past the limit there is none. */
  lemma ApprovedWithin(c: Config, f: Family, locals: Pair<seq<Addr>>, sels: set<Sel>, x: Traits, s: State, level: Level, req: Request, p: Packet)
    requires TraitCase(c, f, locals, sels, x, s, level, req, p)
    ensures TraitsAtLeast(c, f, locals, sels) <= MAX_POINTS
  {
    hide Steady, JudgedOn, NotWorse, Held, Protected, BothAsks, Reached, InRange, FamiliesRight, Applied, BaseSpans, BaseTells, BothSpans, TellsBy, LeastPoints, PointCount;
    BaseSelected(s, Applied(s, req), f);
    CountAtLeast(s, Applied(s, req), f, BaseSpans(c, f, locals), BaseTells(c, f));
  }

  lemma BlocksStop(c: Config, f: Family, locals: Pair<seq<Addr>>, list: seq<Sel>, x: Traits, q: Packet)
    requires NativeExit(c) && (forall sel :: sel in list ==> Real(sel)) && q.iif == c.overlayIf
    requires q.f == f ==> !SameTraits(SetOf(list), TraitsOf(q), x)
    ensures var s' := Space(c, f, locals, After1(c, f, list, x)); SafeFrom(s', ByDevice, s'.rules.At(q.f), q)
  {
    hide SafeFrom, Space, Blocks, Tail, Guard, SameTraits;
    var s' := Space(c, f, locals, After1(c, f, list, x));
    SpaceIs(c, f, locals, After1(c, f, list, x));
    if q.f == f {
      BlocksIff(s', ByDevice, f, list, x, Tail(c, f), q);
      GuardPasses(s', ByDevice, c, f, Blocks(f, list, x) + Tail(c, f), q);
    } else {
      OtherFamily(c, f, locals, After1(c, f, list, x), q);
    }
  }

  lemma BlocksGate(c: Config, f: Family, locals: Pair<seq<Addr>>, list: seq<Sel>, x: Traits, q: Packet)
    requires NativeExit(c) && (forall sel :: sel in list ==> Real(sel)) && !Covered(c, f, SetOf(list), x)
    requires JudgedOn(Space(c, f, locals, Before1(c, f, list, x)), Space(c, f, locals, After1(c, f, list, x)), q)
    ensures NotWorse(Space(c, f, locals, Before1(c, f, list, x)), Space(c, f, locals, After1(c, f, list, x)), [q])
  {
    var s, s' := Space(c, f, locals, Before1(c, f, list, x)), Space(c, f, locals, After1(c, f, list, x));
    hide Covered, JudgedTraits, JudgedSource, JudgedTarget, BothAsks, SafeFrom, Space, Blocks, Before1, After1, SameTraits, Policy.Ends, Allows;
    SpaceAsks(c, f, locals, list, x);
    SpaceIs(c, f, locals, Before1(c, f, list, x));
    OnlyOverlay(c, f, locals, After1(c, f, list, x), q);
    hide Protected;
    if q.iif == c.overlayIf {
      if q.f == f {
        UncoveredTold(c, f, SetOf(list), x, TraitsOf(q));
      }
      BlocksStop(c, f, locals, list, x, q);
      KeptNotWorse(s, s', q);
    }
  }

  /** Every set of selectors, all traits that are not covered, and not too many packets to judge:
      such a namespace, deletion and packet. */
  lemma UncoveredEscapes(c: Config, f: Family, locals: Pair<seq<Addr>>, list: seq<Sel>, x: Traits)
    requires NativeExit(c) && (forall sel :: sel in list ==> Real(sel)) && !Covered(c, f, SetOf(list), x)
    requires (forall a :: a in locals.At(f) ==> a.family == f) && TraitsAtLeast(c, f, locals, SetOf(list)) <= MAX_POINTS
    ensures var s := Space(c, f, locals, Before1(c, f, list, x));
            var p := Sent(c, f, x, OtherAddr(f));
            && TraitCase(c, f, locals, SetOf(list), x, s, ByTable, DelRule(Stray(f)), p)
            && !Held(Applied(s, DelRule(Stray(f))), ByTable, p)
  {
    hide JudgedOn, NotWorse, SafeFrom, Held, Covered, BothAsks, Before1, After1, Steady, Applied, Space, TraitsAtLeast, WithinLimit;
    hide Sent, InRange, Protected, Reached, OtherAddr, Real;
    var s, s' := Space(c, f, locals, Before1(c, f, list, x)), Space(c, f, locals, After1(c, f, list, x));
    var p := Sent(c, f, x, OtherAddr(f));
    SpaceIs(c, f, locals, Before1(c, f, list, x));
    TraitSpaces(c, f, locals, list, x);
    SpaceAsks(c, f, locals, list, x);
    TraitCount(c, f, locals, list, x);
    forall q | JudgedOn(s, s', q)
      ensures NotWorse(s, s', [q])
    {
      BlocksGate(c, f, locals, list, x, q);
    }
    OtherSent(c, f, x, s, s');
    TraitEnds(c, f, locals, list, x, p);
  }

  lemma OtherSent(c: Config, f: Family, x: Traits, s: State, s': State)
    ensures var p := Sent(c, f, x, OtherAddr(f));
            InRange(p) && Reached(s, s', p.dst) && TraitsOf(p) == x && p.f == f && p.iif == c.overlayIf && (s.spec.config == c ==> Protected(s, p))
  {
    AddressRange(f);
    assert !IsLoopback(Addr(f, OtherAddr(f))) && (f.V4? ==> OtherAddr(f) < LOOPBACK_FIRST);
    SentInRange(c, f, x, OtherAddr(f));
  }

  /** A packet with the traits the blocks let through: stopped by the stray, out once that is gone. */
  lemma TraitEnds(c: Config, f: Family, locals: Pair<seq<Addr>>, list: seq<Sel>, x: Traits, p: Packet)
    requires NativeExit(c) && (forall sel :: sel in list ==> Real(sel)) && p.f == f && p.iif == c.overlayIf && TraitsOf(p) == x
    ensures Held(Space(c, f, locals, Before1(c, f, list, x)), ByTable, p) && !Held(Space(c, f, locals, After1(c, f, list, x)), ByTable, p)
  {
    var rest := Blocks(f, list, x) + Tail(c, f);
    var s, s' := Space(c, f, locals, Before1(c, f, list, x)), Space(c, f, locals, After1(c, f, list, x));
    SpaceIs(c, f, locals, Before1(c, f, list, x));
    SpaceIs(c, f, locals, After1(c, f, list, x));
    PlainYes(Stray(f), p);
    hide SafeFrom, Held, Blocks, Tail, Guard, Space, Matches;
    HeldIsSafe(s, ByTable, p);
    HeldIsSafe(s', ByTable, p);
    GuardPasses(s, ByTable, c, f, [Stray(f)] + rest, p);
    GuardPasses(s', ByTable, c, f, rest, p);
    RejectFirst(s, ByTable, Stray(f), rest, p);
    BlocksIff(s', ByTable, f, list, x, Tail(c, f), p);
    TailLetsOut(s', c, f, ByTable, p);
    assert SameTraits(SetOf(list), TraitsOf(p), x);
  }

  /** The gate keeps every held packet with these traits, in every namespace with these selectors
      and local addresses, if and only if its judged packets cover them or a change there has more
      packets to judge than the limit. */
  lemma TraitsIff(c: Config, f: Family, locals: Pair<seq<Addr>>, list: seq<Sel>, x: Traits)
    requires NativeExit(c) && (forall sel :: sel in list ==> Real(sel)) && forall a :: a in locals.At(f) ==> a.family == f
    ensures GateKeepsTraits(c, f, locals, SetOf(list), x) <==>
            Covered(c, f, SetOf(list), x) || TraitsAtLeast(c, f, locals, SetOf(list)) > MAX_POINTS
  {
    hide Covered, TraitCase, Held, Applied, TraitsAtLeast;
    if Covered(c, f, SetOf(list), x) || TraitsAtLeast(c, f, locals, SetOf(list)) > MAX_POINTS {
      forall s: State, level: Level, req: Request, p: Packet | TraitCase(c, f, locals, SetOf(list), x, s, level, req, p)
        ensures Held(Applied(s, req), level, p)
      {
        ApprovedWithin(c, f, locals, SetOf(list), x, s, level, req, p);
        CoveredKept(c, f, locals, SetOf(list), x, s, level, req, p);
      }
    } else {
      UncoveredEscapes(c, f, locals, list, x);
    }
  }

  /** What that comes to: at most 13333 marks, protocols and types of service together are always
      judged, more than 50000 never are. */
  lemma TraitsSimple(c: Config, f: Family, locals: Pair<seq<Addr>>, list: seq<Sel>, x: Traits)
    requires NativeExit(c) && (forall sel :: sel in list ==> Real(sel)) && forall a :: a in locals.At(f) ==> a.family == f
    ensures TraitPoints(c, f, SetOf(list)) <= 13333 ==>
              (GateKeepsTraits(c, f, locals, SetOf(list), x) <==> Covered(c, f, SetOf(list), x))
    ensures TraitPoints(c, f, SetOf(list)) > 50000 ==> GateKeepsTraits(c, f, locals, SetOf(list), x)
  {
    var t, n := TraitPoints(c, f, SetOf(list)), LeastAddresses(f, locals.At(f), BaseSpans(c, f, locals), BaseTells(c, f));
    var i := if c.overlay.At(f).Some? then SpanOf(c.overlay.At(f).v) else Interval(0, 0);
    assert BaseTells(c, f) <= {i};
    hide TraitPoints, LeastAddresses, BaseSpans, BaseTells, GateKeepsTraits, Covered, SetOf, SpanOf;
    TraitsIff(c, f, locals, list, x);
    FewAddresses(f, locals.At(f), BaseSpans(c, f, locals), BaseTells(c, f), i);
    SomeAddresses(f, locals.At(f), BaseSpans(c, f, locals), BaseTells(c, f));
    if t <= 13333 {
      TimesGrow(t, n, 13333, 15);
      TimesGrow(2, Times(t, n), 2, 199995);
    } else if t > 50000 {
      TimesGrow(50001, 4, t, n);
      TimesGrow(2, 200004, 2, Times(t, n));
    }
  }

  // ---- traits no judged packet has ----

  /** Three rules that each look at one bit of the mark: marks with two of the bits are missed. */
  lemma MissedMark(c: Config, f: Family)
    requires c.controlMark == 0
    ensures !Covered(c, f, SetOf([MarkSel(1, 1), MarkSel(2, 2), MarkSel(4, 4)]), Traits(3, 17, 0))
  {
    var sels := SetOf([MarkSel(1, 1), MarkSel(2, 2), MarkSel(4, 4)]);
    BitSelects(3);
    forall m | m in MarkCands(c, sels)
      ensures !MarkAlike(sels, m, 3)
    {
      BitCands(c, sels, m);
      BitSelects(m);
      hide MaskedEqual, MarkCands;
      assert MarkSel(1, 1) in sels && MarkSel(2, 2) in sels && MarkSel(4, 4) in sels;
    }
  }

  lemma BitSelects(m: nat)
    ensures MaskedEqual(1, m, 1) <==> m % 2 == 1
    ensures MaskedEqual(2, m, 2) <==> m / 2 % 2 == 1
    ensures MaskedEqual(4, m, 4) <==> m / 4 % 2 == 1
  {
    assert MaskedEqual(0, m / 2, 0) && MaskedEqual(0, m / 4, 0) && MaskedEqual(0, m / 8, 0);
    assert m / 2 / 2 == m / 4;
    assert MaskedEqual(1, m / 4, 1) <==> m / 4 % 2 == 1;
    assert MaskedEqual(1, m / 2, 1) <==> m / 2 % 2 == 1;
    assert MaskedEqual(2, m / 2, 2) <==> MaskedEqual(1, m / 4, 1);
  }

  lemma BitValues()
    ensures Xor(1, 1) == 0 && Xor(2, 2) == 0 && Xor(4, 4) == 0 && Or(0, 0x21) == 0x21
    ensures LowestBit(1) == 1 && LowestBit(2) == 2 && LowestBit(4) == 4
  {
    assert Xor(0, 0) == 0;
    assert Or(0, 1) == 1 && Or(0, 2) == 2 && Or(0, 4) == 4 && Or(0, 8) == 8 && Or(0, 0x10) == 0x10;
  }

  lemma BitCands(c: Config, sels: set<Sel>, m: nat)
    requires c.controlMark == 0 && sels == SetOf([MarkSel(1, 1), MarkSel(2, 2), MarkSel(4, 4)]) && m in MarkCands(c, sels)
    ensures m / 4 % 2 == 1 || m % 2 == 0 || m / 2 % 2 == 0
  {
    BitValues();
    assert ALL_ONES / 4 == 0x3fff_ffff && 0x21 / 2 == 16 && GLUETUN_MARK / 4 == 12955;
    hide Xor, Or, LowestBit;
    assert m in {0, ALL_ONES, 0x21, GLUETUN_MARK, 1, 2, 4};
  }

  /** Rules for ICMP, TCP, UDP and 253: any protocol they do not name is missed. */
  lemma MissedProto(c: Config, f: Family, n: nat)
    requires n !in {Icmp(f), 6, 17, 253}
    ensures !Covered(c, f, SetOf([ProtoSel(Icmp(f)), ProtoSel(6), ProtoSel(17), ProtoSel(253)]), Traits(0, n, 0))
  {
    var sels := SetOf([ProtoSel(Icmp(f)), ProtoSel(6), ProtoSel(17), ProtoSel(253)]);
    assert forall m :: m in {Icmp(f), 6, 17, 253} ==> ProtoSel(m) in sels;
    NoneAsked(f, n);
    hide SetOf, MarkCovered, ProtoCovered, TosCovered, Protos;
    ProtoCoveredIff(sels, f, n);
  }

  lemma NoneAsked(f: Family, n: nat)
    requires n !in {Icmp(f), 6, 17, 253}
    ensures n !in Protos(SetOf([ProtoSel(Icmp(f)), ProtoSel(6), ProtoSel(17), ProtoSel(253)]), f)
  {
  }

  /** Rules for DSCP zero and for the four values tried: any other type of service is missed. */
  lemma MissedTos(c: Config, f: Family, t: nat)
    requires t / 4 != 0 && t !in {0xe0, 0xb8, 0x28, 0x04}
    ensures !Covered(c, f, SetOf([DscpSel(0), TosSel(0xe0), TosSel(0xb8), TosSel(0x28), TosSel(0x04)]), Traits(0, 17, t))
  {
    var sels := SetOf([DscpSel(0), TosSel(0xe0), TosSel(0xb8), TosSel(0x28), TosSel(0x04)]);
    assert DscpSel(0) in sels && TosSel(0xe0) in sels && TosSel(0xb8) in sels && TosSel(0x28) in sels && TosSel(0x04) in sels;
    assert AllReal(sels);
    FourTried(sels);
    hide AskedToses, SetOf, Toses, OtherTos, TosCovered, MarkCovered, ProtoCovered;
    TosCoveredIff(sels, t);
  }

  lemma FourAsked(sels: set<Sel>)
    requires sels == SetOf([DscpSel(0), TosSel(0xe0), TosSel(0xb8), TosSel(0x28), TosSel(0x04)])
    ensures AskedToses(sels) == {0, 0xe0, 0xb8, 0x28, 0x04} && DscpSel(0) in sels && forall d :: DscpSel(d) in sels ==> d == 0
  {
    assert DscpSel(0).dscp * 4 % 256 == 0;
    assert TosSel(0xe0) in sels && TosSel(0xb8) in sels && TosSel(0x28) in sels && TosSel(0x04) in sels;
  }

  lemma FourTried(sels: set<Sel>)
    requires sels == SetOf([DscpSel(0), TosSel(0xe0), TosSel(0xb8), TosSel(0x28), TosSel(0x04)])
    ensures Toses(sels) == {0, 0xe0, 0xb8, 0x28, 0x04} && OtherTos(AskedToses(sels)) == {}
    ensures DscpSel(0) in sels && forall d :: DscpSel(d) in sels ==> d == 0
  {
    FourAsked(sels);
    hide AskedToses, SetOf;
  }
}
