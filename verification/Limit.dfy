/**
The limit on the packets a change is judged on: how few a namespace with given selectors can
come to, and that a plain one comes to no more.
*/
module Limit {
  import opened Rtnl
  import opened Contract
  import opened Policy
  import opened Escape
  import opened Marks
  import opened Points
  import opened Classes

  // ---- the judged addresses as classes ----

  ghost function SourceRel(s: State, s': State, f: Family): (nat, nat) -> bool {
    (a: nat, b: nat) => SourceSig(s, s', f, Addr(f, a), Addr(f, b))
  }

  ghost function TargetRel(s: State, s': State, f: Family): (nat, nat) -> bool {
    (a: nat, b: nat) => TargetSig(s, s', f, Addr(f, a), Addr(f, b))
  }

  lemma SourceRelIs(s: State, s': State, f: Family)
    ensures Equivalence(SourceRel(s, s', f))
  {
    hide SourceAlike;
    var rel := SourceRel(s, s', f);
    forall a
      ensures rel(a, a)
    {
      SourceSigSelf(s, s', Addr(f, a));
    }
    forall a, b | rel(a, b)
      ensures rel(b, a)
    {
      SourceSigBack(s, s', f, Addr(f, a), Addr(f, b));
    }
    forall a, b, c | rel(a, b) && rel(b, c)
      ensures rel(a, c)
    {
      SourceSigTrans(s, s', f, Addr(f, a), Addr(f, b), Addr(f, c));
    }
  }

  lemma SourceSigBack(s: State, s': State, f: Family, a: Addr, b: Addr)
    requires SourceSig(s, s', f, a, b)
    ensures SourceSig(s, s', f, b, a)
  {
  }

  lemma TargetRelIs(s: State, s': State, f: Family)
    ensures Equivalence(TargetRel(s, s', f))
  {
    hide TargetAlike;
    var rel := TargetRel(s, s', f);
    forall a
      ensures rel(a, a)
    {
      TargetSigSelf(s, s', Addr(f, a));
    }
    forall a, b | rel(a, b)
      ensures rel(b, a)
    {
      TargetSigBack(s, s', f, Addr(f, a), Addr(f, b));
    }
    forall a, b, c | rel(a, b) && rel(b, c)
      ensures rel(a, c)
    {
      TargetSigTrans(s, s', f, Addr(f, a), Addr(f, b), Addr(f, c));
    }
  }

  lemma TargetSigBack(s: State, s': State, f: Family, a: Addr, b: Addr)
    requires TargetSig(s, s', f, a, b)
    ensures TargetSig(s, s', f, b, a)
  {
  }

  lemma SourcesAre(s: State, s': State, f: Family)
    ensures JudgedSources(s, s', f) == Firsts(Cands(s, s', f), SourceRel(s, s', f))
  {
    hide Cands, SourceSig;
  }

  lemma TargetIn(s: State, s': State, f: Family, n: nat)
    ensures n in JudgedTargets(s, s', f) <==> n in Firsts(Cands(s, s', f), TargetRel(s, s', f)) && n != 0
  {
    hide Cands, TargetSig;
  }

  lemma ZeroApart(s: State, s': State, f: Family, n: nat)
    requires TargetSig(s, s', f, Addr(f, n), Addr(f, 0))
    ensures n == 0
  {
    hide TargetAlike, IsLocal;
  }

  lemma ZeroFirst(s: State, s': State, f: Family)
    ensures 0 in Firsts(Cands(s, s', f), TargetRel(s, s', f))
  {
    hide CandsOf, TargetSig;
    CandsAll(BothSpans(s, s', f), f);
    forall n | n in Cands(s, s', f) && TargetRel(s, s', f)(n, 0)
      ensures 0 <= n
    {
      ZeroApart(s, s', f, n);
    }
  }

  /** The unspecified destination is a class of its own. */
  lemma TargetsAre(s: State, s': State, f: Family)
    ensures |JudgedTargets(s, s', f)| + 1 == |Firsts(Cands(s, s', f), TargetRel(s, s', f))|
  {
    hide Cands, TargetRel, JudgedTargets, Firsts;
    var all := Firsts(Cands(s, s', f), TargetRel(s, s', f));
    ZeroFirst(s, s', f);
    forall n
      ensures n in JudgedTargets(s, s', f) <==> n in all - {0}
    {
      TargetIn(s, s', f, n);
    }
    assert JudgedTargets(s, s', f) == all - {0};
  }

  // ---- the fewest addresses ----

  predicate LocalTo(locals: seq<Addr>, a: Addr) {
    a in locals || IsLoopback(a)
  }

  /** What tells sources apart in any namespace with these local addresses. */
  ghost function LikeSource(f: Family, locals: seq<Addr>): (nat, nat) -> bool {
    (a: nat, b: nat) => (a == 0 <==> b == 0) && (LocalTo(locals, Addr(f, a)) <==> LocalTo(locals, Addr(f, b)))
  }

  /** And destinations, where these intervals do. */
  ghost function LikeTarget(f: Family, locals: seq<Addr>, ds: set<Interval>): (nat, nat) -> bool {
    (a: nat, b: nat) =>
      (a == 0 <==> b == 0) && (LocalTo(locals, Addr(f, a)) <==> LocalTo(locals, Addr(f, b))) && Alike(ds, a, b)
  }

  lemma LikesAre(f: Family, locals: seq<Addr>, ds: set<Interval>)
    ensures Equivalence(LikeSource(f, locals)) && Equivalence(LikeTarget(f, locals, ds))
  {
    hide LocalTo;
  }

  /** How many sources and destinations there are to judge at least, when the namespace selects on
      the intervals and tells destinations apart by ds. */
  ghost function LeastAddresses(f: Family, locals: seq<Addr>, ivs: set<Interval>, ds: set<Interval>): nat {
    Times(|Firsts(CandsOf(ivs, f), LikeSource(f, locals))|, |Firsts(CandsOf(ivs, f), LikeTarget(f, locals, ds))|)
  }

  /** And how many packets, with these selectors of marks, protocols and types of service. */
  ghost function LeastPoints(c: Config, f: Family, sels: set<Sel>, locals: seq<Addr>, ivs: set<Interval>, ds: set<Interval>): nat {
    Times(2, Times(TraitPoints(c, f, sels), LeastAddresses(f, locals, ivs, ds)))
  }

  /** The change tells destinations apart by these intervals. */
  ghost predicate TellsBy(s: State, s': State, f: Family, ds: set<Interval>) {
    forall a: nat, b: nat :: TargetSig(s, s', f, Addr(f, a), Addr(f, b)) ==> Alike(ds, a, b)
  }

  lemma CandsGrow(ivs: set<Interval>, more: set<Interval>, f: Family)
    requires ivs <= more
    ensures CandsOf(ivs, f) <= CandsOf(more, f)
  {
    hide MaxAddr, OtherAddr;
    forall n | n in Cuts(ivs, MaxAddr(f))
      ensures n in Cuts(more, MaxAddr(f))
    {
    }
  }

  lemma AddressesAtLeast(s: State, s': State, f: Family, ivs: set<Interval>, ds: set<Interval>)
    requires ivs <= BothSpans(s, s', f) && TellsBy(s, s', f, ds)
    ensures LeastAddresses(f, s.locals.At(f), ivs, ds) <= AddressPoints(s, s', f)
  {
    var locals, cs, all := s.locals.At(f), CandsOf(ivs, f), Cands(s, s', f);
    CandsGrow(ivs, BothSpans(s, s', f), f);
    SourcesAre(s, s', f);
    TargetsAre(s, s', f);
    SourceRelIs(s, s', f);
    TargetRelIs(s, s', f);
    SigsTell(s, s', f, ds);
    hide CandsOf, Cands, BothSpans, SourceRel, TargetRel, LikeSource, LikeTarget, Firsts, Equivalence, Finer, Times, JudgedSources, JudgedTargets;
    FirstsGrow(cs, LikeSource(f, locals), all, SourceRel(s, s', f));
    FirstsGrow(cs, LikeTarget(f, locals, ds), all, TargetRel(s, s', f));
    TimesGrow(|Firsts(cs, LikeSource(f, locals))|, |Firsts(cs, LikeTarget(f, locals, ds))|,
              |JudgedSources(s, s', f)|, |JudgedTargets(s, s', f)| + 1);
  }

  lemma SigsTell(s: State, s': State, f: Family, ds: set<Interval>)
    requires TellsBy(s, s', f, ds)
    ensures Finer(SourceRel(s, s', f), LikeSource(f, s.locals.At(f)))
    ensures Finer(TargetRel(s, s', f), LikeTarget(f, s.locals.At(f), ds))
  {
    hide SourceAlike, TargetAlike, Alike, IsLoopback;
  }

  /** A namespace that tells no more apart judges no more. */
  lemma AddressesAtMost(s: State, s': State, f: Family, ivs: set<Interval>, ds: set<Interval>)
    requires BothSpans(s, s', f) == ivs
    requires Finer(LikeSource(f, s.locals.At(f)), SourceRel(s, s', f)) && Finer(LikeTarget(f, s.locals.At(f), ds), TargetRel(s, s', f))
    ensures AddressPoints(s, s', f) <= LeastAddresses(f, s.locals.At(f), ivs, ds)
  {
    var locals, cs := s.locals.At(f), CandsOf(ivs, f);
    SourcesAre(s, s', f);
    TargetsAre(s, s', f);
    LikesAre(f, locals, ds);
    hide CandsOf, BothSpans, SourceRel, TargetRel, LikeSource, LikeTarget, Firsts, Equivalence, Finer, Times, JudgedSources, JudgedTargets;
    FirstsGrow(cs, SourceRel(s, s', f), cs, LikeSource(f, locals));
    FirstsGrow(cs, TargetRel(s, s', f), cs, LikeTarget(f, locals, ds));
    TimesGrow(|JudgedSources(s, s', f)|, |JudgedTargets(s, s', f)| + 1,
              |Firsts(cs, LikeSource(f, locals))|, |Firsts(cs, LikeTarget(f, locals, ds))|);
  }

  // ---- ports, users and the rest ----

  lemma ZeroJudged(ivs: set<Interval>, max: nat)
    ensures |JudgedValues(ivs, max)| >= 1
  {
    assert 0 in JudgedValues(ivs, max);
  }

  lemma FieldsAtLeast(s: State, s': State, f: Family)
    ensures FieldPoints(s, s', f) >= 1
  {
    hide JudgedValues, Ranges;
    forall k
      ensures |JudgedField(s, s', f, k)| >= 1
    {
      ZeroJudged(Ranges(BothRules(s, s', f), k), MaxValue(k));
    }
    hide JudgedField;
    var u, l := |JudgedField(s, s', f, User)|, |JudgedL3(s, s', f)|;
    TimesGrow(1, 1, u, l);
    TimesGrow(1, 1, |JudgedField(s, s', f, Dport)|, Times(u, l));
    TimesGrow(1, 1, |JudgedField(s, s', f, Sport)|, Times(|JudgedField(s, s', f, Dport)|, Times(u, l)));
  }

  lemma NoRange(max: nat)
    ensures JudgedValues({}, max) == {0}
  {
    assert Cuts({}, max) == {};
  }

  lemma FieldsPlain(s: State, s': State, f: Family)
    requires forall r :: r in BothRules(s, s', f) ==> r.l3mdev.None? && forall u :: u in r.unknown ==> u.Dscp?
    ensures FieldPoints(s, s', f) == 1
  {
    forall k
      ensures |JudgedField(s, s', f, k)| == 1
    {
      NoRanges(BothRules(s, s', f), k);
      NoRange(MaxValue(k));
    }
    assert JudgedL3(s, s', f) == {false} by {
      assert forall r :: r in s.rules.At(f) || r in s'.rules.At(f) ==> r in BothRules(s, s', f);
    }
    hide JudgedField, JudgedL3;
  }

  lemma NoRanges(rules: seq<Rule>, k: Field)
    requires forall r :: r in rules ==> forall u :: u in r.unknown ==> u.Dscp?
    ensures Ranges(rules, k) == {}
  {
    hide Counts;
    forall r, i | r in rules && 0 <= i < |r.unknown|
      ensures !IsRangeOf(r.unknown[i], k)
    {
      assert r.unknown[i] in r.unknown;
    }
  }

  // ---- all together ----

  lemma CountAtLeast(s: State, s': State, f: Family, ivs: set<Interval>, ds: set<Interval>)
    requires ivs <= BothSpans(s, s', f) && TellsBy(s, s', f, ds)
    ensures LeastPoints(s.spec.config, f, BothAsks(s, s', f), s.locals.At(f), ivs, ds) <= PointCount(s, s', f)
  {
    hide BothSpans, TellsBy, LeastAddresses, AddressPoints, FieldPoints, TraitPoints, BothAsks, Times;
    var t, l := TraitPoints(s.spec.config, f, BothAsks(s, s', f)), LeastAddresses(f, s.locals.At(f), ivs, ds);
    var a, n := AddressPoints(s, s', f), FieldPoints(s, s', f);
    AddressesAtLeast(s, s', f, ivs, ds);
    FieldsAtLeast(s, s', f);
    TimesGrow(1, l, n, a);
    TimesOne(l);
    TimesGrow(t, l, t, Times(n, a));
    TimesGrow(2, Times(t, l), 2, Times(t, Times(n, a)));
  }

  lemma TimesOne(n: nat)
    ensures Times(1, n) == n
  {
  }

  lemma CountAtMost(s: State, s': State, f: Family, ivs: set<Interval>, ds: set<Interval>)
    requires BothSpans(s, s', f) == ivs && FieldPoints(s, s', f) == 1
    requires Finer(LikeSource(f, s.locals.At(f)), SourceRel(s, s', f)) && Finer(LikeTarget(f, s.locals.At(f), ds), TargetRel(s, s', f))
    ensures PointCount(s, s', f) <= LeastPoints(s.spec.config, f, BothAsks(s, s', f), s.locals.At(f), ivs, ds)
  {
    hide BothSpans, LeastAddresses, AddressPoints, FieldPoints, TraitPoints, BothAsks, Times, Finer, LikeSource, LikeTarget;
    var t, l := TraitPoints(s.spec.config, f, BothAsks(s, s', f)), LeastAddresses(f, s.locals.At(f), ivs, ds);
    var a := AddressPoints(s, s', f);
    AddressesAtMost(s, s', f, ivs, ds);
    TimesOne(a);
    TimesGrow(t, Times(1, a), t, l);
    TimesGrow(2, Times(t, Times(1, a)), 2, Times(t, l));
  }

  // ---- few intervals, few candidates ----

  /** The ends of an interval and the values just outside it. */
  ghost function Edges(i: Interval): set<nat> {
    {i.lo, i.hi, if i.lo > 0 then i.lo - 1 else 0, i.hi + 1}
  }

  lemma CutFrom(ivs: set<Interval>, max: nat, n: nat) returns (i: Interval)
    requires n in Cuts(ivs, max)
    ensures i in ivs && n in Edges(i)
  {
    if n in (set i | i in ivs && i.lo <= max :: i.lo) {
      i :| i in ivs && n == i.lo;
    } else if n in (set i | i in ivs && i.hi <= max :: i.hi) {
      i :| i in ivs && n == i.hi;
    } else if n in (set i | i in ivs && i.hi < max :: i.hi + 1) {
      i :| i in ivs && n == i.hi + 1;
    } else {
      i :| i in ivs && 0 < i.lo && n == i.lo - 1;
    }
  }

  lemma TwoCuts(ivs: set<Interval>, i: Interval, j: Interval, f: Family)
    requires ivs <= {i, j}
    ensures |CandsOf(ivs, f)| <= 10
  {
    hide MaxAddr, OtherAddr, Cuts, Edges;
    var max := MaxAddr(f);
    var few, most := {0, OtherAddr(f)}, Edges(i) + Edges(j);
    forall n | n in Cuts(ivs, max)
      ensures n in most
    {
      var k := CutFrom(ivs, max, n);
    }
    FourEdges(i);
    FourEdges(j);
    UnionCount(Edges(i), Edges(j));
    UnionCount(few, most);
    OneMore({0}, OtherAddr(f));
    assert {0} + {OtherAddr(f)} == few;
    SubsetCount(CandsOf(ivs, f), few + most);
  }

  lemma FourEdges(i: Interval)
    ensures |Edges(i)| <= 4
  {
    FourAtMost(i.lo, i.hi, if i.lo > 0 then i.lo - 1 else 0, i.hi + 1);
  }

  lemma UnionCount(a: set<nat>, b: set<nat>)
    ensures |a + b| <= |a| + |b|
  {
    assert a + b == a + (b - a);
    SubsetCount(b - a, b);
  }

  /** With two intervals at most and nothing else asked for, a change is far from the limit. */
  lemma FewPoints(s: State, s': State, f: Family, i: Interval, j: Interval)
    requires BothSpans(s, s', f) <= {i, j} && BothAsks(s, s', f) == {} && FieldPoints(s, s', f) == 1
    ensures PointCount(s, s', f) <= 4400
  {
    hide BothSpans, BothAsks, FieldPoints, TraitPoints, CandsOf, JudgedSource, JudgedTarget;
    TwoCuts(BothSpans(s, s', f), i, j, f);
    SubsetCount(JudgedSources(s, s', f), Cands(s, s', f));
    SubsetCount(JudgedTargets(s, s', f), Cands(s, s', f));
    hide JudgedSources, JudgedTargets;
    BareTraits(s.spec.config, f);
    var t, a := TraitPoints(s.spec.config, f, {}), AddressPoints(s, s', f);
    TimesGrow(|JudgedSources(s, s', f)|, |JudgedTargets(s, s', f)| + 1, 10, 11);
    TimesOne(a);
    TimesGrow(t, Times(1, a), 20, 110);
    TimesGrow(2, Times(t, Times(1, a)), 2, 2200);
  }

  // ---- selectors only add ----

  ghost function MarkRel(c: Config, sels: set<Sel>): (nat, nat) -> bool {
    (a: nat, b: nat) => MarkSig(c, sels, a, b)
  }

  lemma MarksAre(c: Config, sels: set<Sel>)
    ensures JudgedMarks(c, sels) == Firsts(MarkCands(c, sels), MarkRel(c, sels)) && Equivalence(MarkRel(c, sels))
  {
    hide MaskedEqual, MarkCands;
  }

  lemma MarkCandsGrow(c: Config, sels: set<Sel>)
    ensures MarkCands(c, {}) <= MarkCands(c, sels)
  {
    hide Xor, Or, LowestBit;
  }

  lemma MarksGrow(c: Config, sels: set<Sel>)
    ensures |JudgedMarks(c, {})| <= |JudgedMarks(c, sels)|
  {
    MarksAre(c, {});
    MarksAre(c, sels);
    MarkCandsGrow(c, sels);
    assert Finer(MarkRel(c, sels), MarkRel(c, {})) by {
      hide MaskedEqual;
    }
    hide MarkCands, JudgedMarks, Firsts, MarkRel, Finer, Equivalence;
    FirstsGrow(MarkCands(c, {}), MarkRel(c, {}), MarkCands(c, sels), MarkRel(c, sels));
  }

  lemma TraitsGrow(c: Config, f: Family, sels: set<Sel>)
    ensures TraitPoints(c, f, {}) <= TraitPoints(c, f, sels)
  {
    MarksGrow(c, sels);
    SubsetCount(Protos({}, f), Protos(sels, f));
    BareToses();
    assert {0} <= Toses(sels);
    SubsetCount(Toses({}), Toses(sels));
    hide JudgedMarks, Protos, Toses, Times;
    TimesGrow(|Protos({}, f)|, |Toses({})|, |Protos(sels, f)|, |Toses(sels)|);
    TimesGrow(|JudgedMarks(c, {})|, Times(|Protos({}, f)|, |Toses({})|), |JudgedMarks(c, sels)|, Times(|Protos(sels, f)|, |Toses(sels)|));
  }

  lemma OneMore(s: set<nat>, n: nat)
    ensures |s + {n}| <= |s| + 1
  {
    if n in s {
      assert s + {n} == s;
    }
  }

  lemma FourAtMost(a: nat, b: nat, c: nat, d: nat)
    ensures |{a, b, c, d}| <= 4
  {
    OneMore({a}, b);
    OneMore({a, b}, c);
    OneMore({a, b, c}, d);
    assert {a} + {b} == {a, b} && {a, b} + {c} == {a, b, c} && {a, b, c} + {d} == {a, b, c, d};
  }

  lemma FiveAtMost(a: nat, b: nat, c: nat, d: nat, e: nat)
    ensures |{a, b, c, d, e}| <= 5
  {
    FourAtMost(a, b, c, d);
    OneMore({a, b, c, d}, e);
    assert {a, b, c, d} + {e} == {a, b, c, d, e};
  }

  lemma BareMarks(c: Config)
    ensures |JudgedMarks(c, {})| <= 5
  {
    hide Or, Xor, LowestBit, JudgedMark;
    FiveAtMost(0, ALL_ONES, c.controlMark, Or(c.controlMark, 0x21), GLUETUN_MARK);
    assert MarkCands(c, {}) == {0, ALL_ONES, c.controlMark, Or(c.controlMark, 0x21), GLUETUN_MARK};
    SubsetCount(JudgedMarks(c, {}), MarkCands(c, {}));
  }

  lemma BareProtos(f: Family)
    ensures |Protos({}, f)| <= 4
  {
    assert Protos({}, f) == {6, 17, 253} + {Icmp(f)};
    assert |{6, 17, 253}| == 3;
    OneMore({6, 17, 253}, Icmp(f));
  }

  lemma BareToses()
    ensures Toses({}) == {0}
  {
    assert AskedToses({}) == {0};
  }

  /** With nothing asked for there are five marks at most, four protocols and one type of service. */
  lemma BareTraits(c: Config, f: Family)
    ensures TraitPoints(c, f, {}) <= 20
  {
    hide JudgedMarks, Protos, Toses;
    BareMarks(c);
    BareProtos(f);
    BareToses();
    TimesGrow(|Protos({}, f)|, |Toses({})|, 4, 1);
    TimesGrow(|JudgedMarks(c, {})|, Times(|Protos({}, f)|, |Toses({})|), 5, 4);
  }

  /** There are two sources at least, and two destinations with the unspecified one. */
  lemma SomeAddresses(f: Family, locals: seq<Addr>, ivs: set<Interval>, ds: set<Interval>)
    ensures LeastAddresses(f, locals, ivs, ds) >= 4
  {
    hide Firsts, CandsOf, Equivalence, LocalTo, Alike, OtherAddr, MaxAddr;
    LikesAre(f, locals, ds);
    CandsAll(ivs, f);
    TwoFirsts(CandsOf(ivs, f), LikeSource(f, locals), OtherAddr(f));
    TwoFirsts(CandsOf(ivs, f), LikeTarget(f, locals, ds), OtherAddr(f));
    TimesGrow(2, 2, |Firsts(CandsOf(ivs, f), LikeSource(f, locals))|, |Firsts(CandsOf(ivs, f), LikeTarget(f, locals, ds))|);
  }

  lemma TwoFirsts(cs: set<nat>, like: (nat, nat) -> bool, n: nat)
    requires Equivalence(like) && 0 in cs && n in cs && n > 0 && forall a :: like(a, 0) ==> a == 0
    ensures |Firsts(cs, like)| >= 2
  {
    var x := FirstOf(cs, like, 0);
    var y := FirstOf(cs, like, n);
    assert like(x, 0) && like(n, y);
    SubsetCount({0, y}, Firsts(cs, like));
  }

  /** Destinations told apart by one prefix: sources come to three at most, destinations to five. */
  lemma FewAddresses(f: Family, locals: seq<Addr>, ivs: set<Interval>, ds: set<Interval>, i: Interval)
    requires ds <= {i}
    ensures LeastAddresses(f, locals, ivs, ds) <= 15
  {
    hide LocalTo, CandsOf, Firsts;
    var src := (n: nat) => if n == 0 then 0 else if LocalTo(locals, Addr(f, n)) then 1 else 2;
    var dst := (n: nat) => if n == 0 then 0 else (if LocalTo(locals, Addr(f, n)) then 1 else 2) + (if Inside(n, i) then 2 else 0);
    assert |{0, 1, 2}| == 3 && |{0, 1, 2, 3, 4}| == 5;
    FirstsAtMost(CandsOf(ivs, f), LikeSource(f, locals), src, {0, 1, 2});
    FirstsAtMost(CandsOf(ivs, f), LikeTarget(f, locals, ds), dst, {0, 1, 2, 3, 4});
    TimesGrow(|Firsts(CandsOf(ivs, f), LikeSource(f, locals))|, |Firsts(CandsOf(ivs, f), LikeTarget(f, locals, ds))|, 3, 5);
  }
}
