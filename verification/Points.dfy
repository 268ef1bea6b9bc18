/**
The packets a deletion is judged on: one for each set of packets that no rule, route or class
can tell apart, found at the boundaries of the selectors. Every address, port and user has one
that stands for it.
*/
module Points {
  import opened Rtnl
  import opened Contract
  import opened Policy
  import opened Escape
  import opened Marks
  import opened Classes

  // ---- cutting a line at the ends of intervals ----

  datatype Interval = Interval(lo: nat, hi: nat)

  predicate Inside(v: nat, i: Interval) {
    i.lo <= v <= i.hi
  }

  /** The values at the ends of the intervals and just outside them. */
  ghost function Cuts(ivs: set<Interval>, max: nat): set<nat> {
    (set i | i in ivs && i.lo <= max :: i.lo)
    + (set i | i in ivs && i.hi <= max :: i.hi)
    + (set i | i in ivs && 0 < i.lo <= max + 1 :: i.lo - 1)
    + (set i | i in ivs && i.hi < max :: i.hi + 1)
  }

  /** No interval tells the two values apart. */
  ghost predicate Alike(ivs: set<Interval>, a: nat, b: nat) {
    forall i :: i in ivs ==> (Inside(a, i) <==> Inside(b, i))
  }

  lemma {:induction false} GreatestOf(s: set<nat>) returns (m: nat)
    requires s != {}
    ensures m in s && forall x :: x in s ==> x <= m
    decreases |s|
  {
    var a :| a in s;
    var rest := s - {a};
    m := a;
    if rest != {} {
      var n := GreatestOf(rest);
      m := if n > a then n else a;
    }
    assert forall x :: x in s ==> x == a || x in rest;
  }

  lemma CutEnds(ivs: set<Interval>, max: nat, i: Interval)
    requires i in ivs
    ensures i.lo <= max ==> i.lo in Cuts(ivs, max)
    ensures i.hi <= max ==> i.hi in Cuts(ivs, max)
    ensures 0 < i.lo <= max + 1 ==> i.lo - 1 in Cuts(ivs, max)
    ensures i.hi < max ==> i.hi + 1 in Cuts(ivs, max)
  {
  }

  /** The next cut at or above a value is like it. */
  lemma NextAlike(ivs: set<Interval>, max: nat, cs: set<nat>, v: nat, c: nat)
    requires Cuts(ivs, max) <= cs && v <= c <= max && c in cs
    requires forall x :: x in cs && v <= x ==> c <= x
    ensures Alike(ivs, v, c)
  {
    forall i | i in ivs
      ensures Inside(v, i) <==> Inside(c, i)
    {
      CutEnds(ivs, max, i);
    }
  }

  /** The last cut at or below a value is like it. */
  lemma PriorAlike(ivs: set<Interval>, max: nat, cs: set<nat>, v: nat, c: nat)
    requires Cuts(ivs, max) <= cs && c <= v <= max && c in cs
    requires forall x :: x in cs && x <= v ==> x <= c
    ensures Alike(ivs, v, c)
  {
    forall i | i in ivs
      ensures Inside(v, i) <==> Inside(c, i)
    {
      CutEnds(ivs, max, i);
    }
  }

  /** Every value has a cut like it; one above zero, if some cut is, has one above zero. */
  lemma CutFor(ivs: set<Interval>, max: nat, cs: set<nat>, v: nat) returns (c: nat)
    requires Cuts(ivs, max) <= cs && 0 in cs && v <= max && forall x :: x in cs ==> x <= max
    ensures c in cs && Alike(ivs, v, c)
    ensures v > 0 && (exists x :: x in cs && x > 0) ==> c > 0
  {
    var above := set x | x in cs && v <= x;
    assert forall x :: x in cs && v <= x ==> x in above;
    if above != {} {
      c := LeastOf(above);
      NextAlike(ivs, max, cs, v, c);
    } else {
      var below := set x | x in cs && x <= v;
      assert 0 in below && forall x :: x in cs && x <= v ==> x in below;
      c := GreatestOf(below);
      assert forall x :: x in cs ==> x <= c;
      PriorAlike(ivs, max, cs, v, c);
    }
  }

  // ---- the selectors' intervals ----

  ghost function SpanOf(p: Prefix): Interval {
    Interval(p.First(), p.First() + p.Size() - 1)
  }

  lemma ContainsIs(p: Prefix, a: Addr)
    ensures p.Contains(a) <==> a.family == p.addr.family && Inside(a.n, SpanOf(p))
  {
  }

  ghost function HostSpans(addrs: seq<Addr>): set<Interval> {
    set a | a in addrs :: Interval(a.n, a.n)
  }

  ghost function RuleSpans(rules: seq<Rule>): set<Interval> {
    (set r | r in rules && r.src.Some? :: SpanOf(r.src.v)) + (set r | r in rules && r.dst.Some? :: SpanOf(r.dst.v))
  }

  ghost function RouteSpans(routes: map<nat, seq<Route>>): set<Interval> {
    (set t, rt | t in routes && rt in routes[t] :: SpanOf(rt.dst))
    + (set t, rt | t in routes && rt in routes[t] && rt.src.Some? :: SpanOf(rt.src.v))
  }

  /** The intervals of addresses a state's rules, routes and classes select on. */
  ghost function Spans(s: State, f: Family): set<Interval> {
    RuleSpans(s.rules.At(f)) + RouteSpans(s.routes.At(f))
    + HostSpans(s.live.At(f)) + HostSpans(s.spec.returnPath.At(f)) + HostSpans(s.locals.At(f))
    + (if s.spec.config.overlay.At(f).Some? then {SpanOf(s.spec.config.overlay.At(f).v)} else {})
  }

  /** An address like none of those: 8.8.8.8, or 2001:4860:4860::8888. */
  function OtherAddr(f: Family): nat {
    if f.V4? then 0x0808_0808 else 0x2001_4860_4860_0000_0000_0000_0000_8888
  }

  function MaxAddr(f: Family): nat {
    Pow2(Width(f)) - 1
  }

  ghost function BothSpans(s: State, s': State, f: Family): set<Interval> {
    Spans(s, f) + Spans(s', f)
  }

  ghost function CandsOf(ivs: set<Interval>, f: Family): set<nat> {
    {0, OtherAddr(f)} + Cuts(ivs, MaxAddr(f))
  }

  /** The candidate addresses of a change. */
  ghost function Cands(s: State, s': State, f: Family): set<nat> {
    CandsOf(BothSpans(s, s', f), f)
  }

  // ---- signatures ----

  predicate SameSelect(p: Opt<Prefix>, a: Addr, b: Addr) {
    p.Some? && p.v.len > 0 ==> (p.v.Contains(a) <==> p.v.Contains(b))
  }

  predicate IsTunnelAddr(s: State, a: Addr) {
    a in s.live.At(a.family) || a in s.spec.returnPath.At(a.family)
  }

  /** No rule, route or class of the state tells the two sources apart. */
  predicate SourceAlike(s: State, f: Family, a: Addr, b: Addr) {
    && (forall r :: r in s.rules.At(f) ==> SameSelect(r.src, a, b))
    && (forall t :: t in s.routes.At(f) ==> forall rt :: rt in s.routes.At(f)[t] ==> SameSelect(rt.src, a, b))
    && (IsTunnelAddr(s, a) <==> IsTunnelAddr(s, b))
  }

  /** No rule or route of the state tells the two destinations apart. */
  predicate TargetAlike(s: State, f: Family, a: Addr, b: Addr) {
    && (forall r :: r in s.rules.At(f) ==> SameSelect(r.dst, a, b))
    && (forall t :: t in s.routes.At(f) ==> forall rt :: rt in s.routes.At(f)[t] ==> (rt.dst.Contains(a) <==> rt.dst.Contains(b)))
  }

  predicate IsLocal(s: State, a: Addr) {
    a in s.locals.At(a.family) || IsLoopback(a)
  }

  lemma {:induction false} SpanMembers(s: State, f: Family)
    ensures forall r :: r in s.rules.At(f) && r.src.Some? ==> SpanOf(r.src.v) in Spans(s, f)
    ensures forall r :: r in s.rules.At(f) && r.dst.Some? ==> SpanOf(r.dst.v) in Spans(s, f)
    ensures forall t, rt :: t in s.routes.At(f) && rt in s.routes.At(f)[t] ==> SpanOf(rt.dst) in Spans(s, f)
    ensures forall t, rt :: t in s.routes.At(f) && rt in s.routes.At(f)[t] && rt.src.Some? ==> SpanOf(rt.src.v) in Spans(s, f)
    ensures forall a :: a in s.live.At(f) || a in s.spec.returnPath.At(f) || a in s.locals.At(f) ==> Interval(a.n, a.n) in Spans(s, f)
  {
    hide SpanOf;
  }

  /** Addresses the intervals cannot tell apart are alike. */
  lemma AlikeSelects(s: State, f: Family, ivs: set<Interval>, a: Addr, b: Addr)
    requires Spans(s, f) <= ivs && Alike(ivs, a.n, b.n) && a.family == b.family == f
    requires FamiliesRight(s, f)
    ensures SourceAlike(s, f, a, b) && TargetAlike(s, f, a, b) && (a in s.locals.At(f) <==> b in s.locals.At(f))
  {
    SpanMembers(s, f);
    hide Spans, SpanOf;
    forall p: Prefix | SpanOf(p) in ivs
      ensures p.Contains(a) <==> p.Contains(b)
    {
      ContainsIs(p, a);
      ContainsIs(p, b);
    }
    forall x: Addr | Interval(x.n, x.n) in ivs && x.family == f
      ensures x == a <==> x == b
    {
      assert Inside(a.n, Interval(x.n, x.n)) <==> Inside(b.n, Interval(x.n, x.n));
    }
  }

  /** The addresses of a family's lists are of the family. */
  predicate FamiliesRight(s: State, f: Family) {
    && (forall a :: a in s.live.At(f) ==> a.family == f)
    && (forall a :: a in s.spec.returnPath.At(f) ==> a.family == f)
    && (forall a :: a in s.locals.At(f) ==> a.family == f)
  }

  // ---- the judged addresses ----

  /** The signature of a candidate source; the code also separates local addresses. */
  predicate SourceSig(s: State, s': State, f: Family, a: Addr, b: Addr) {
    && SourceAlike(s, f, a, b) && SourceAlike(s', f, a, b) && (a.n == 0 <==> b.n == 0)
    && (IsLocal(s, a) <==> IsLocal(s, b))
  }

  predicate TargetSig(s: State, s': State, f: Family, a: Addr, b: Addr) {
    && TargetAlike(s, f, a, b) && TargetAlike(s', f, a, b) && (a.n == 0 <==> b.n == 0)
    && (IsLocal(s, a) <==> IsLocal(s, b))
    && (s.spec.config.overlay.At(f).Some? ==>
          (s.spec.config.overlay.At(f).v.Contains(a) <==> s.spec.config.overlay.At(f).v.Contains(b)))
  }

  /** The first candidate of its signature. */
  ghost predicate JudgedSource(s: State, s': State, a: Addr) {
    && a.n in Cands(s, s', a.family)
    && forall c :: c in Cands(s, s', a.family) && SourceSig(s, s', a.family, Addr(a.family, c), a) ==> a.n <= c
  }

  ghost predicate JudgedTarget(s: State, s': State, a: Addr) {
    && a.n in Cands(s, s', a.family) && a.n != 0
    && forall c :: c in Cands(s, s', a.family) && TargetSig(s, s', a.family, Addr(a.family, c), a) ==> a.n <= c
  }

  lemma SourceSigTrans(s: State, s': State, f: Family, a: Addr, b: Addr, c: Addr)
    requires SourceSig(s, s', f, a, b) && SourceSig(s, s', f, b, c)
    ensures SourceSig(s, s', f, a, c)
  {
  }

  lemma TargetSigTrans(s: State, s': State, f: Family, a: Addr, b: Addr, c: Addr)
    requires TargetSig(s, s', f, a, b) && TargetSig(s, s', f, b, c)
    ensures TargetSig(s, s', f, a, c)
  {
  }

  lemma PickSource(s: State, s': State, a: Addr) returns (b: Addr)
    requires a.n in Cands(s, s', a.family)
    ensures b.family == a.family && JudgedSource(s, s', b) && SourceSig(s, s', a.family, b, a)
  {
    hide SourceSig, Cands;
    var f := a.family;
    var like := set c | c in Cands(s, s', f) && SourceSig(s, s', f, Addr(f, c), a);
    SourceSigSelf(s, s', a);
    assert a.n in like;
    var m := LeastOf(like);
    b := Addr(f, m);
    forall c | c in Cands(s, s', f) && SourceSig(s, s', f, Addr(f, c), b)
      ensures m <= c
    {
      SourceSigTrans(s, s', f, Addr(f, c), b, a);
      assert c in like;
    }
  }

  lemma SourceSigSelf(s: State, s': State, a: Addr)
    ensures SourceSig(s, s', a.family, Addr(a.family, a.n), a)
  {
  }

  lemma PickTarget(s: State, s': State, a: Addr) returns (b: Addr)
    requires a.n in Cands(s, s', a.family) && a.n != 0
    ensures b.family == a.family && JudgedTarget(s, s', b) && TargetSig(s, s', a.family, b, a)
  {
    var f := a.family;
    TargetSigSelf(s, s', a);
    hide Cands, TargetAlike;
    var like := set c | c in Cands(s, s', f) && TargetSig(s, s', f, Addr(f, c), a);
    assert a.n in like;
    var m := LeastOf(like);
    b := Addr(f, m);
    forall c | c in Cands(s, s', f) && TargetSig(s, s', f, Addr(f, c), b)
      ensures m <= c
    {
      TargetSigTrans(s, s', f, Addr(f, c), b, a);
      assert c in like;
    }
  }

  lemma TargetSigSelf(s: State, s': State, a: Addr)
    ensures TargetSig(s, s', a.family, Addr(a.family, a.n), a)
  {
  }

  lemma AddressRange(f: Family)
    ensures 0 < OtherAddr(f) <= MaxAddr(f)
  {
    assert Pow2(4) == 16;
    hide Pow2;
    PowDouble(4, 16);
    PowDouble(8, 0x100);
    PowDouble(16, 0x1_0000);
    PowDouble(32, 0x1_0000_0000);
    PowDouble(64, 0x1_0000_0000_0000_0000);
  }

  lemma PowDouble(k: nat, v: nat)
    requires Pow2(k) == v
    ensures Pow2(k + k) == v * v
  {
    hide Pow2;
    PowSum(k, k);
  }

  lemma {:induction false} PowSum(a: nat, b: nat)
    ensures Pow2(a + b) == Pow2(a) * Pow2(b)
  {
    if a > 0 {
      PowSum(a - 1, b);
    }
  }

  // ---- ports, users and the rest ----

  datatype Field = Sport | Dport | User

  function ValueOf(p: Packet, k: Field): nat {
    match k case Sport => p.sport case Dport => p.dport case User => p.uid
  }

  function MaxValue(k: Field): nat {
    if k.User? then 0xffff_ffff else 0xffff
  }

  predicate IsRangeOf(u: RawAttr, k: Field) {
    match k case Sport => u.SportRange? case Dport => u.DportRange? case User => u.UidRange?
  }

  function RangeOf(u: RawAttr): Interval {
    match u
    case UidRange(lo, hi) => Interval(lo, hi)
    case SportRange(lo, hi) => Interval(lo, hi)
    case DportRange(lo, hi) => Interval(lo, hi)
    case Dscp(v) => Interval(v, v)
    case OtherAttr(k, _) => Interval(k, k)
  }

  /** The ranges the rules select a field by. */
  ghost function Ranges(rules: seq<Rule>, k: Field): set<Interval> {
    set r, i | r in rules && 0 <= i < |r.unknown| && Counts(r.unknown, i) && IsRangeOf(r.unknown[i], k) :: RangeOf(r.unknown[i])
  }

  /** The first value of each set the ranges cannot tell apart. */
  ghost predicate JudgedValue(ivs: set<Interval>, max: nat, v: nat) {
    var cs := {0} + Cuts(ivs, max);
    v in cs && forall c :: c in cs && Alike(ivs, c, v) ==> v <= c
  }

  lemma ValueFor(ivs: set<Interval>, max: nat, v: nat) returns (c: nat)
    requires v <= max
    ensures JudgedValue(ivs, max, c) && Alike(ivs, c, v)
  {
    var cs := {0} + Cuts(ivs, max);
    var d := CutFor(ivs, max, cs, v);
    hide Cuts;
    var like := set x | x in cs && Alike(ivs, x, v);
    assert d in like;
    c := LeastOf(like);
    forall x | x in cs && Alike(ivs, x, c)
      ensures c <= x
    {
      assert x in like;
    }
  }

  predicate SelectsL3(s: State, f: Family) {
    exists r :: r in s.rules.At(f) && r.l3mdev.Some? && r.l3mdev.v != 0
  }

  // ---- the packets a change is judged on ----

  function BothRules(s: State, s': State, f: Family): seq<Rule> {
    s.rules.At(f) + s'.rules.At(f)
  }

  ghost function RoutesOf(s: State, f: Family): set<Route> {
    set t, rt | t in s.routes.At(f) && rt in s.routes.At(f)[t] :: rt
  }

  ghost function BothRoutes(s: State, s': State, f: Family): set<Route> {
    RoutesOf(s, f) + RoutesOf(s', f)
  }

  /** The selectors of marks, protocols and types of service, before and after. */
  ghost function BothAsks(s: State, s': State, f: Family): set<Sel> {
    Asks(BothRules(s, s', f), BothRoutes(s, s', f))
  }

  /** The packet is one of those a change is judged on. */
  ghost predicate JudgedOn(s: State, s': State, q: Packet) {
    var rules := BothRules(s, s', q.f);
    && (q.iif == s.spec.config.overlayIf || q.iif == "lo")
    && JudgedTraits(s.spec.config, q.f, BothAsks(s, s', q.f), TraitsOf(q))
    && q.src.family == q.f && q.dst.family == q.f && JudgedSource(s, s', q.src) && JudgedTarget(s, s', q.dst)
    && (forall k :: JudgedValue(Ranges(rules, k), MaxValue(k), ValueOf(q, k)))
    && (q.l3 ==> SelectsL3(s, q.f) || SelectsL3(s', q.f))
  }

  ghost function JudgedSources(s: State, s': State, f: Family): set<nat> {
    set n | n in Cands(s, s', f) && JudgedSource(s, s', Addr(f, n))
  }

  ghost function JudgedTargets(s: State, s': State, f: Family): set<nat> {
    set n | n in Cands(s, s', f) && JudgedTarget(s, s', Addr(f, n))
  }

  ghost function JudgedValues(ivs: set<Interval>, max: nat): set<nat> {
    set v | v in {0} + Cuts(ivs, max) && JudgedValue(ivs, max, v)
  }

  ghost function JudgedField(s: State, s': State, f: Family, k: Field): set<nat> {
    JudgedValues(Ranges(BothRules(s, s', f), k), MaxValue(k))
  }

  ghost function JudgedL3(s: State, s': State, f: Family): set<bool> {
    if SelectsL3(s, f) || SelectsL3(s', f) then {false, true} else {false}
  }

  ghost function FieldPoints(s: State, s': State, f: Family): nat {
    Times(|JudgedField(s, s', f, Sport)|, Times(|JudgedField(s, s', f, Dport)|, Times(|JudgedField(s, s', f, User)|, |JudgedL3(s, s', f)|)))
  }

  /** The unspecified destination is counted, though no packet to it is judged. */
  ghost function AddressPoints(s: State, s': State, f: Family): nat {
    Times(|JudgedSources(s, s', f)|, |JudgedTargets(s, s', f)| + 1)
  }

  /** How many packets of a family a change is to be judged on, from two arrival interfaces. */
  ghost function PointCount(s: State, s': State, f: Family): nat {
    Times(2, Times(TraitPoints(s.spec.config, f, BothAsks(s, s', f)), Times(FieldPoints(s, s', f), AddressPoints(s, s', f))))
  }

  const MAX_POINTS := 400_000

  /** There are not too many to judge. */
  ghost predicate WithinLimit(s: State, s': State) {
    forall f :: PointCount(s, s', f) <= MAX_POINTS
  }

  /** A packet is judged exactly if each of its fields has a judged value. */
  lemma JudgedIff(s: State, s': State, q: Packet)
    ensures JudgedOn(s, s', q) <==>
            && q.iif in {s.spec.config.overlayIf, "lo"}
            && JudgedTraits(s.spec.config, q.f, BothAsks(s, s', q.f), TraitsOf(q))
            && (forall k :: ValueOf(q, k) in JudgedField(s, s', q.f, k)) && q.l3 in JudgedL3(s, s', q.f)
            && q.src.family == q.f && q.src.n in JudgedSources(s, s', q.f)
            && q.dst.family == q.f && q.dst.n in JudgedTargets(s, s', q.f)
  {
    hide JudgedTraits, BothAsks, Cands, SourceSig, TargetSig, Cuts, Alike, Ranges;
  }

  /** The gate's answer: the judged packets are not too many, and none gains an end its class
      forbids. */
  ghost predicate GateApproves(s: State, s': State) {
    WithinLimit(s, s') && forall q :: JudgedOn(s, s', q) ==> NotWorse(s, s', [q])
  }

  /** A judged mark, protocol and type of service are ones the rules and routes cannot tell from
      the packet's. */
  ghost predicate Represented(s: State, s': State, p: Packet) {
    Covered(s.spec.config, p.f, BothAsks(s, s', p.f), TraitsOf(p))
  }

  // ---- every packet has a judged one ----

  /** What the change leaves the two packets to be told apart by. */
  ghost predicate FieldsAlike(s: State, q: Packet, p: Packet) {
    && q.f == p.f && q.iif == p.iif
    && SourceAlike(s, p.f, q.src, p.src) && TargetAlike(s, p.f, q.dst, p.dst)
    && (IsLocal(s, q.dst) <==> IsLocal(s, p.dst))
    && SameTraits(Asks(s.rules.At(p.f), RoutesOf(s, p.f)), TraitsOf(q), TraitsOf(p))
    && (p.iif == s.spec.config.overlayIf || q.proto == p.proto)
    && (forall k :: Alike(Ranges(s.rules.At(p.f), k), ValueOf(q, k), ValueOf(p, k)))
    && (SelectsL3(s, p.f) ==> q.l3 == p.l3)
  }

  lemma RawAlike(s: State, r: Rule, i: nat, q: Packet, p: Packet)
    requires FieldsAlike(s, q, p) && r in s.rules.At(p.f) && i < |r.unknown| && Counts(r.unknown, i)
    ensures RawSelects(r.unknown[i], q) <==> RawSelects(r.unknown[i], p)
  {
    hide SourceAlike, TargetAlike, Counts;
    var u := r.unknown[i];
    assert u in r.unknown;
    match u
    case UidRange(lo, hi) =>
      assert RangeOf(u) in Ranges(s.rules.At(p.f), User);
      assert Inside(ValueOf(q, User), RangeOf(u)) <==> Inside(ValueOf(p, User), RangeOf(u));
    case SportRange(lo, hi) =>
      assert RangeOf(u) in Ranges(s.rules.At(p.f), Sport);
      assert Inside(ValueOf(q, Sport), RangeOf(u)) <==> Inside(ValueOf(p, Sport), RangeOf(u));
    case DportRange(lo, hi) =>
      assert RangeOf(u) in Ranges(s.rules.At(p.f), Dport);
      assert Inside(ValueOf(q, Dport), RangeOf(u)) <==> Inside(ValueOf(p, Dport), RangeOf(u));
    case Dscp(v) => AskedByRule(s, p.f, r, i);
    case OtherAttr(_, _) =>
  }

  lemma UnknownAlike(s: State, r: Rule, q: Packet, p: Packet)
    requires FieldsAlike(s, q, p) && r in s.rules.At(p.f)
    ensures UnknownSelects(r.unknown, q) <==> UnknownSelects(r.unknown, p)
  {
    forall i | 0 <= i < |r.unknown| && Counts(r.unknown, i)
      ensures RawSelects(r.unknown[i], q) <==> RawSelects(r.unknown[i], p)
    {
      RawAlike(s, r, i, q, p);
    }
    hide FieldsAlike, Counts, RawSelects;
  }

  lemma AskedByRule(s: State, f: Family, r: Rule, i: nat)
    requires r in s.rules.At(f) && i < |r.unknown| && Counts(r.unknown, i) && r.unknown[i].Dscp?
    ensures DscpSel(r.unknown[i].value) in Asks(s.rules.At(f), RoutesOf(s, f))
  {
    hide Counts;
    assert DscpSel(r.unknown[i].value) in TosSels(s.rules.At(f));
  }

  lemma TraitsAlike(s: State, r: Rule, q: Packet, p: Packet)
    requires r in s.rules.At(p.f) && SameTraits(Asks(s.rules.At(p.f), RoutesOf(s, p.f)), TraitsOf(q), TraitsOf(p))
    ensures MaskedEqual(r.EffectiveMark().0, q.mark, r.EffectiveMark().1) <==> MaskedEqual(r.EffectiveMark().0, p.mark, r.EffectiveMark().1)
    ensures r.ipProto.None? || r.ipProto.v == 0 || (r.ipProto.v == q.proto <==> r.ipProto.v == p.proto)
    ensures r.tos == 0 || (r.tos == q.tos <==> r.tos == p.tos)
  {
    var sels := Asks(s.rules.At(p.f), RoutesOf(s, p.f));
    hide RoutesOf;
    if LooksAtMark(r) {
      var sel := MarkSel(r.EffectiveMark().0, r.EffectiveMark().1);
      assert sel in MarkSels(s.rules.At(p.f));
      assert Picks(sel, TraitsOf(q)) <==> Picks(sel, TraitsOf(p));
    }
    if r.ipProto.Some? && r.ipProto.v != 0 {
      var sel := ProtoSel(r.ipProto.v);
      assert sel in ProtoSels(s.rules.At(p.f));
      assert Picks(sel, TraitsOf(q)) <==> Picks(sel, TraitsOf(p));
    }
    if r.tos != 0 {
      var sel := TosSel(r.tos);
      assert sel in TosSels(s.rules.At(p.f));
      assert Picks(sel, TraitsOf(q)) <==> Picks(sel, TraitsOf(p));
    }
  }

  lemma RuleAlike(s: State, r: Rule, q: Packet, p: Packet)
    requires FieldsAlike(s, q, p) && r in s.rules.At(p.f)
    ensures Matches(r, q) == Matches(r, p)
  {
    hide UnknownSelects, MaskedEqual, Ranges, Alike;
    UnknownAlike(s, r, q, p);
    assert SameSelect(r.src, q.src, p.src) && SameSelect(r.dst, q.dst, p.dst);
    TraitsAlike(s, r, q, p);
    assert Selects(r.src, q.src) <==> Selects(r.src, p.src);
    assert Selects(r.dst, q.dst) <==> Selects(r.dst, p.dst);
    assert Accepts(r, q) <==> Accepts(r, p);
  }

  lemma RouteAlike(s: State, t: nat, rt: Route, q: Packet, p: Packet)
    requires FieldsAlike(s, q, p) && t in s.routes.At(p.f) && rt in s.routes.At(p.f)[t]
    ensures SameForRoute(s, rt, q, p)
  {
    hide Ranges, Alike;
    assert SameSelect(rt.src, q.src, p.src);
    assert rt in RoutesOf(s, p.f);
    if rt.family.V4? && rt.tos != 0 {
      assert TosSel(rt.tos) in Asks(s.rules.At(p.f), RoutesOf(s, p.f));
      assert Picks(TosSel(rt.tos), TraitsOf(q)) <==> Picks(TosSel(rt.tos), TraitsOf(p));
    }
  }

  /** Packets alike in every field stand for one another. */
  lemma AlikeStands(s: State, q: Packet, p: Packet)
    requires FieldsAlike(s, q, p) && q.src.family == q.dst.family == q.f && p.src.family == p.dst.family == p.f
    ensures StandsFor(s, q, p)
  {
    forall r | r in s.rules.At(p.f)
      ensures Matches(r, q) == Matches(r, p)
    {
      RuleAlike(s, r, q, p);
    }
    forall t, rt | t in s.routes.At(p.f) && rt in s.routes.At(p.f)[t]
      ensures SameForRoute(s, rt, q, p)
    {
      RouteAlike(s, t, rt, q, p);
    }
    hide Matches, SameForRoute, Ranges, Alike, SameTraits;
  }

  // ---- destinations ----

  const LOOPBACK_FIRST := 0x7f00_0000

  /** A candidate that may be judged for destinations outside the loopback addresses. */
  ghost predicate Usable(ivs: set<Interval>, f: Family, c: nat) {
    c in CandsOf(ivs, f) && c > 0 && !IsLoopback(Addr(f, c))
  }

  /** The address is below the loopback addresses, or a candidate lies at or above it, as one does
      where anything selects the highest address, or a usable one is like the highest address. */
  ghost predicate Near(ivs: set<Interval>, a: Addr) {
    || a.family.V6? || a.n < LOOPBACK_FIRST
    || (exists c :: c in CandsOf(ivs, a.family) && a.n <= c)
    || (exists c :: Usable(ivs, a.family, c) && Alike(ivs, MaxAddr(a.family), c))
  }

  ghost predicate Reached(s: State, s': State, a: Addr) {
    Near(BothSpans(s, s', a.family), a)
  }

  predicate InRange(p: Packet) {
    && p.src.family == p.f && p.dst.family == p.f && p.src.n <= MaxAddr(p.f) && p.dst.n <= MaxAddr(p.f)
    && p.dst.n != 0 && !IsLoopback(p.dst)
    && forall k :: ValueOf(p, k) <= MaxValue(k)
  }

  lemma CandsInRange(ivs: set<Interval>, f: Family, c: nat)
    requires c in CandsOf(ivs, f)
    ensures c <= MaxAddr(f)
  {
    hide Pow2;
    AddressRange(f);
  }

  lemma SourceFor(s: State, s': State, a: Addr) returns (b: Addr)
    requires a.n <= MaxAddr(a.family) && FamiliesRight(s, a.family) && FamiliesRight(s', a.family)
    ensures b.family == a.family && JudgedSource(s, s', b)
    ensures SourceAlike(s, a.family, b, a) && SourceAlike(s', a.family, b, a)
  {
    var f := a.family;
    var ivs, cs := BothSpans(s, s', f), Cands(s, s', f);
    forall c | c in cs
      ensures c <= MaxAddr(f)
    {
      CandsInRange(ivs, f, c);
    }
    hide Spans, SourceAlike, TargetAlike, MaxAddr, JudgedSource;
    var n := CutFor(ivs, MaxAddr(f), cs, a.n);
    var m := Addr(f, n);
    AlikeSelects(s, f, ivs, m, a);
    AlikeSelects(s', f, ivs, m, a);
    b := PickSource(s, s', m);
    SourceTrans(s, f, b, m, a);
    SourceTrans(s', f, b, m, a);
  }

  lemma SourceTrans(s: State, f: Family, a: Addr, b: Addr, c: Addr)
    requires SourceAlike(s, f, a, b) && SourceAlike(s, f, b, c)
    ensures SourceAlike(s, f, a, c)
  {
  }

  lemma CandsAll(ivs: set<Interval>, f: Family)
    ensures Cuts(ivs, MaxAddr(f)) <= CandsOf(ivs, f) && 0 in CandsOf(ivs, f)
    ensures Usable(ivs, f, OtherAddr(f)) && OtherAddr(f) <= MaxAddr(f)
    ensures f.V4? ==> OtherAddr(f) < LOOPBACK_FIRST
    ensures forall c :: c in CandsOf(ivs, f) ==> c <= MaxAddr(f)
  {
    forall c | c in CandsOf(ivs, f)
      ensures c <= MaxAddr(f)
    {
      CandsInRange(ivs, f, c);
    }
    AddressRange(f);
    hide MaxAddr, Cuts;
  }

  /** With no candidate at or above it, an address is like the highest one. */
  lemma TopAlike(ivs: set<Interval>, max: nat, v: nat)
    requires v <= max && forall c :: c in Cuts(ivs, max) ==> c < v
    ensures Alike(ivs, v, max)
  {
    forall i | i in ivs
      ensures Inside(v, i) <==> Inside(max, i)
    {
      CutEnds(ivs, max, i);
    }
  }

  lemma AboveUsable(ivs: set<Interval>, a: Addr) returns (c: nat)
    requires 0 < a.n <= MaxAddr(a.family) && !IsLoopback(a) && exists x :: x in CandsOf(ivs, a.family) && a.n <= x
    ensures Usable(ivs, a.family, c) && Alike(ivs, a.n, c)
  {
    var f := a.family;
    var cs := CandsOf(ivs, f);
    CandsAll(ivs, f);
    hide CandsOf, MaxAddr, Cuts, OtherAddr, Alike;
    var above := set x | x in cs && a.n <= x;
    assert forall x :: x in cs && a.n <= x ==> x in above;
    c := LeastOf(above);
    NextAlike(ivs, MaxAddr(f), cs, a.n, c);
    if IsLoopback(Addr(f, c)) {
      // The address is below the loopback addresses, and so is the candidate before it.
      var below := set x | x in cs && x <= a.n;
      assert forall x :: x in cs && x <= a.n ==> x in below;
      assert 0 in below;
      c := GreatestOf(below);
      assert OtherAddr(f) in below || OtherAddr(f) in above;
      PriorAlike(ivs, MaxAddr(f), cs, a.n, c);
    }
  }

  lemma BelowUsable(ivs: set<Interval>, a: Addr) returns (c: nat)
    requires 0 < a.n <= MaxAddr(a.family) && !IsLoopback(a) && forall x :: x in CandsOf(ivs, a.family) ==> x < a.n
    requires a.family.V6? || a.n < LOOPBACK_FIRST
    ensures Usable(ivs, a.family, c) && Alike(ivs, a.n, c)
  {
    var f := a.family;
    var cs := CandsOf(ivs, f);
    CandsAll(ivs, f);
    assert f.V6? ==> OtherAddr(f) > 1;
    hide CandsOf, MaxAddr, Cuts, OtherAddr, Alike;
    c := GreatestOf(cs);
    assert OtherAddr(f) <= c;
    PriorAlike(ivs, MaxAddr(f), cs, a.n, c);
  }

  /** A destination outside the loopback addresses has a usable candidate that no selector tells
      from it exactly if it is near. */
  lemma NearIff(ivs: set<Interval>, a: Addr)
    requires 0 < a.n <= MaxAddr(a.family) && !IsLoopback(a)
    ensures Near(ivs, a) <==> exists c :: Usable(ivs, a.family, c) && Alike(ivs, a.n, c)
  {
    var f := a.family;
    CandsAll(ivs, f);
    hide CandsOf, MaxAddr, Cuts, OtherAddr, Alike;
    if exists x :: x in CandsOf(ivs, f) && a.n <= x {
      var c := AboveUsable(ivs, a);
    } else {
      TopAlike(ivs, MaxAddr(f), a.n);
      if f.V6? || a.n < LOOPBACK_FIRST {
        var c := BelowUsable(ivs, a);
      } else {
        forall c
          ensures Alike(ivs, a.n, c) <==> Alike(ivs, MaxAddr(f), c)
        {
          AlikeBoth(ivs, a.n, MaxAddr(f), c);
        }
      }
    }
  }

  lemma AlikeBoth(ivs: set<Interval>, a: nat, b: nat, c: nat)
    requires Alike(ivs, a, b)
    ensures Alike(ivs, a, c) <==> Alike(ivs, b, c)
  {
  }

  /** Where a table that was read has a default route, every destination is reached. */
  lemma DefaultReaches(s: State, s': State, a: Addr, t: nat, rt: Route)
    requires t in s.routes.At(a.family) && rt in s.routes.At(a.family)[t] && a.n <= MaxAddr(a.family)
    requires rt.dst == Prefix(Addr(a.family, 0), 0)
    ensures Reached(s, s', a)
  {
    var f := a.family;
    SpanMembers(s, f);
    DefaultSpan(f);
    hide Spans, MaxAddr, SpanOf;
    CutEnds(Spans(s, f) + Spans(s', f), MaxAddr(f), SpanOf(rt.dst));
    assert MaxAddr(f) in Cands(s, s', f);
  }

  lemma DefaultSpan(f: Family)
    ensures SpanOf(Prefix(Addr(f, 0), 0)).hi == MaxAddr(f)
  {
  }

  lemma TargetFor(s: State, s': State, a: Addr) returns (b: Addr)
    requires 0 < a.n <= MaxAddr(a.family) && !IsLoopback(a) && Reached(s, s', a)
    requires FamiliesRight(s, a.family) && FamiliesRight(s', a.family)
    ensures b.family == a.family && JudgedTarget(s, s', b) && (IsLocal(s, b) <==> IsLocal(s, a))
    ensures TargetAlike(s, a.family, b, a) && TargetAlike(s', a.family, b, a)
  {
    var f := a.family;
    NearIff(BothSpans(s, s', f), a);
    hide Spans, CandsOf, SourceAlike, TargetAlike, MaxAddr, Near, Alike, JudgedTarget;
    var c :| Usable(BothSpans(s, s', f), f, c) && Alike(BothSpans(s, s', f), a.n, c);
    var m := Addr(f, c);
    AlikeSelects(s, f, BothSpans(s, s', f), a, m);
    AlikeSelects(s', f, BothSpans(s, s', f), a, m);
    b := PickTarget(s, s', m);
    TargetBack(s, f, b, m, a);
    TargetBack(s', f, b, m, a);
  }

  lemma TargetBack(s: State, f: Family, b: Addr, m: Addr, a: Addr)
    requires TargetAlike(s, f, b, m) && TargetAlike(s, f, a, m)
    ensures TargetAlike(s, f, b, a)
  {
  }

  lemma FieldFor(s: State, s': State, p: Packet, k: Field) returns (v: nat)
    requires ValueOf(p, k) <= MaxValue(k)
    ensures JudgedValue(Ranges(s.rules.At(p.f) + s'.rules.At(p.f), k), MaxValue(k), v)
    ensures Alike(Ranges(s.rules.At(p.f), k), v, ValueOf(p, k)) && Alike(Ranges(s'.rules.At(p.f), k), v, ValueOf(p, k))
  {
    var both := Ranges(s.rules.At(p.f) + s'.rules.At(p.f), k);
    assert Ranges(s.rules.At(p.f), k) <= both && Ranges(s'.rules.At(p.f), k) <= both;
    hide Ranges, JudgedValue;
    v := ValueFor(both, MaxValue(k), ValueOf(p, k));
  }

  lemma AsksGrow(rules: seq<Rule>, more: seq<Rule>, routes: set<Route>, all: set<Route>)
    requires (forall r :: r in rules ==> r in more) && routes <= all
    ensures Asks(rules, routes) <= Asks(more, all)
  {
    hide Counts;
  }

  /** Alike for both states together, alike for each. */
  lemma JointAlike(s: State, s': State, f: Family, x: Traits, y: Traits)
    requires SameTraits(BothAsks(s, s', f), x, y)
    ensures SameTraits(Asks(s.rules.At(f), RoutesOf(s, f)), x, y) && SameTraits(Asks(s'.rules.At(f), RoutesOf(s', f)), x, y)
  {
    AsksGrow(s.rules.At(f), BothRules(s, s', f), RoutesOf(s, f), BothRoutes(s, s', f));
    AsksGrow(s'.rules.At(f), BothRules(s, s', f), RoutesOf(s', f), BothRoutes(s, s', f));
    hide Asks, Picks;
  }

  /** The traits of a judged packet for this one; of a packet the exit sends itself the protocol
      is kept, which is ICMP. */
  lemma TraitsFor(s: State, s': State, p: Packet) returns (x: Traits)
    requires Represented(s, s', p) && Protected(s, p)
    ensures JudgedTraits(s.spec.config, p.f, BothAsks(s, s', p.f), x)
    ensures SameTraits(BothAsks(s, s', p.f), x, TraitsOf(p)) && (p.iif == s.spec.config.overlayIf || x.proto == p.proto)
  {
    hide Covered, JudgedMark, Toses, BothAsks;
    var sels := BothAsks(s, s', p.f);
    x := CoveredFor(s.spec.config, p.f, sels, TraitsOf(p));
    if p.iif != s.spec.config.overlayIf {
      SameTraitsIff(sels, x, TraitsOf(p));
      x := x.(proto := p.proto);
      SameTraitsIff(sels, x, TraitsOf(p));
    }
  }

  /** Every protected packet whose mark, protocol and type of service are represented has a judged
      one that stands for it before and after the change. */
  lemma PointFor(s: State, s': State, p: Packet) returns (q: Packet)
    requires SameSetting(s, s') && FamiliesRight(s, p.f) && InRange(p) && Represented(s, s', p)
    requires Reached(s, s', p.dst) && Protected(s, p)
    ensures JudgedOn(s, s', q) && StandsFor(s, q, p) && StandsFor(s', q, p)
  {
    hide JudgedSource, JudgedTarget, JudgedValue, JudgedTraits, Ranges, SourceAlike, TargetAlike, SameTraits;
    hide Alike, SelectsL3, IsLoopback, MaxAddr, StandsFor, Reached, Represented, BothAsks, Asks, RoutesOf;
    var x := TraitsFor(s, s', p);
    var src := SourceFor(s, s', p.src);
    var dst := TargetFor(s, s', p.dst);
    var sport := FieldFor(s, s', p, Sport);
    var dport := FieldFor(s, s', p, Dport);
    var uid := FieldFor(s, s', p, User);
    var l3 := if SelectsL3(s, p.f) || SelectsL3(s', p.f) then p.l3 else false;
    q := Packet(p.f, p.iif, x.mark, x.proto, src, dst, x.tos, sport, dport, uid, l3);
    assert TraitsOf(q) == x;
    JointAlike(s, s', p.f, x, TraitsOf(p));
    AlikeStands(s, q, p);
    AlikeStands(s', q, p);
  }

  // ---- no escape, over every run of the owner ----

  /** Every deletion of the run is approved by the gate, on packets that represent this one. */
  ghost predicate GatedRun(s: State, moves: seq<Move>, p: Packet)
    decreases |moves|
  {
    |moves| > 0 ==>
      && Asked(s, moves[0].req)
      && (moves[0].req.Deletes() ==>
            var s' := Applied(s, moves[0].req);
            GateApproves(s, s') && Represented(s, s', p) && Reached(s, s', p.dst))
      && GatedRun(After(s, moves[0]), moves[1..], p)
  }

  /** One request. */
  lemma GatedMoveKeepsHeld(s: State, level: Level, m: Move, p: Packet)
    requires Steady(s, level) && Asked(s, m.req)
    requires m.req.Deletes() ==>
               var s' := Applied(s, m.req);
               GateApproves(s, s') && Represented(s, s', p) && Reached(s, s', p.dst)
    requires FamiliesRight(s, p.f) && InRange(p) && Protected(s, p) && Held(s, level, p)
    ensures Held(After(s, m), level, p)
  {
    hide Steady, Held, JudgedOn, Represented, Reached, StandsFor, NotWorse, Asked, WithinLimit;
    RequestKeepsSteady(s, level, m.req);
    if m.req.Deletes() {
      var s' := Applied(s, m.req);
      var q := PointFor(s, s', p);
      assert NotWorse(s, s', [q]);
      assert q in [q];
      MoveKeepsHeld(s, level, m.(pts := [q]), p);
    } else {
      MoveKeepsHeld(s, level, m, p);
    }
  }

  lemma MoveKeepsSetting(s: State, level: Level, m: Move, p: Packet)
    requires Steady(s, level) && Asked(s, m.req) && FamiliesRight(s, p.f) && Protected(s, p)
    ensures Steady(After(s, m), level) && FamiliesRight(After(s, m), p.f) && Protected(After(s, m), p)
  {
    hide Steady, Asked, Applied;
    RequestKeepsSteady(s, level, m.req);
  }

  /** Whatever the owner asks for, each request taking effect or not, every deletion approved by
      the gate: a protected packet that is held at the start is held at every moment. */
  lemma {:induction false} NoPacketEscapes(s: State, level: Level, moves: seq<Move>, p: Packet, i: nat)
    requires Steady(s, level) && GatedRun(s, moves, p) && i <= |moves|
    requires FamiliesRight(s, p.f) && InRange(p) && Protected(s, p) && Held(s, level, p)
    ensures Held(Run(s, moves[..i]), level, p)
    decreases |moves|
  {
    hide Steady, Held, Represented, Reached, GateApproves, FamiliesRight, InRange, Protected, Asked, After;
    if i > 0 {
      GatedMoveKeepsHeld(s, level, moves[0], p);
      MoveKeepsSetting(s, level, moves[0], p);
      assert moves[..i][0] == moves[0] && moves[..i][1..] == moves[1..][..i - 1];
      NoPacketEscapes(After(s, moves[0]), level, moves[1..], p, i - 1);
    }
  }
}
