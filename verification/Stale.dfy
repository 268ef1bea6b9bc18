/**
What a read-back can cost: a run in which somebody puts in a jump past the contract's rules, rules
are read back, and the deletion of a stray rule is then judged on the model without the jump and
lets a held packet out.
*/
module Stale {
  import opened Rtnl
  import opened Contract
  import opened Policy
  import opened Escape
  import opened EscapeLimits
  import opened Marks
  import opened Points
  import opened Limit
  import opened Spaces
  import opened Watch

  const NOWHERE: Pair<seq<Addr>> := Pair([], [])

  /** The contract holds: its rules are in and the exit table has its fallback. */
  function Whole(c: Config, rules: seq<Rule>): State {
    Space(c, V4, NOWHERE, rules).WithTable(V4, c.table, [FallbackRoute(V4, c.table)])
  }

  function Contract4(c: Config): seq<Rule> {
    OwnRules(c, V4) + [Main(V4)]
  }

  function Strayed(c: Config, rest: seq<Rule>): seq<Rule> {
    [Guard(c, V4)] + ([Stray(V4)] + rest)
  }

  function Cleared(c: Config, rest: seq<Rule>): seq<Rule> {
    [Guard(c, V4)] + rest
  }

  lemma WholeIs(c: Config, rules: seq<Rule>)
    requires NativeExit(c)
    ensures var s := Whole(c, rules);
            && s.rules == Pair(rules, []) && s.spec.config == c && s.live == NOWHERE && s.spec.returnPath == NOWHERE && s.locals == NOWHERE
            && s.Table(V4, c.table) == [FallbackRoute(V4, c.table)] && s.Known(V4, c.table) && !s.Known(V4, TABLE_MAIN)
            && s.routes == Pair(map[c.table := [FallbackRoute(V4, c.table)]], map[c.table := []])
  {
    var back := FallbackRoute(V4, c.table);
    var empty: map<nat, seq<Route>> := map[c.table := []];
    assert empty[c.table := [back]] == map[c.table := [back]];
  }

  lemma StrayTaken(c: Config, rest: seq<Rule>)
    ensures Applied(Whole(c, Strayed(c, rest)), DelRule(Stray(V4))) == Whole(c, Cleared(c, rest))
  {
    var k := Strayed(c, rest);
    assert k[0].priority == 1 && k[1] == Stray(V4) && DeleteMatches(Stray(V4), Stray(V4)) && !DeleteMatches(Stray(V4), k[0]);
    assert FirstMatch(k, Stray(V4)) == 1;
    assert DeleteRule(k, Stray(V4)) == Cleared(c, rest);
  }

  // ---- without the jump the contract stops overlay traffic ----

  /** The rule at 95 looks the exit table up and finds the fallback. */
  lemma FallbackStops(c: Config, rest: seq<Rule>, rules: seq<Rule>, q: Packet)
    requires NativeExit(c) && q.f.V4? && q.iif == c.overlayIf && q.dst.family.V4? && q.dst.n <= MaxAddr(V4)
    ensures SafeFrom(Whole(c, rules), ByDevice, [RuleOf(c, V4, Ingress)] + rest, q)
  {
    var s, r, back := Whole(c, rules), RuleOf(c, V4, Ingress), FallbackRoute(V4, c.table);
    PlainMatch(r, q);
    WholeIs(c, rules);
    TunnelFirst(V4, c.table, 5, q);
    hide Whole, Candidates, RuleOf, Matches;
    LookupStopped(s, r, q, back);
    StoppedIsSafe(s, ByDevice, r, rest, q);
  }

  lemma LookupStopped(s: State, r: Rule, q: Packet, back: Route)
    requires s.Known(q.f, r.table) && r.table != TABLE_LOCAL && Candidates(s.Table(q.f, r.table), q) == [back]
    requires back == FallbackRoute(q.f, r.table) && r.suppressPrefixLen.None? && r.suppressIfGroup.None? && q.f == back.family
    ensures LookupPlaces(s, r, q) == {Stopped} && !LookupFalls(s, r, q)
  {
    hide Candidates;
    assert [back][1..] == [];
  }

  lemma StoppedIsSafe(s: State, level: Level, r: Rule, rest: seq<Rule>, q: Packet)
    requires r.action == ACT_TO_TABLE && Matches(r, q).Yes? && LookupPlaces(s, r, q) == {Stopped} && !LookupFalls(s, r, q)
    ensures SafeFrom(s, level, [r] + rest, q)
  {
    hide Matches, LookupPlaces, LookupFalls;
    assert ([r] + rest)[0] == r;
  }

  /** Overlay traffic does not come from the tunnel. */
  lemma FromTunnelMisses(c: Config, overlay: Prefix, q: Packet)
    requires NativeExit(c) && q.iif == c.overlayIf
    ensures Matches(RuleOf(c, V4, FromTunnel(overlay)), q).No?
  {
  }

  lemma ContractStops(c: Config, rules: seq<Rule>, q: Packet)
    requires NativeExit(c) && q.f.V4? && q.iif == c.overlayIf && q.dst.family.V4? && q.dst.n <= MaxAddr(V4)
    ensures SafeFrom(Whole(c, rules), ByDevice, Contract4(c), q)
  {
    var rest := [RuleOf(c, V4, Egress), RuleOf(c, V4, IngressReject)] + [Main(V4)];
    var three := [RuleOf(c, V4, Ingress)] + rest;
    FallbackStops(c, rest, rules, q);
    hide Whole, MaxAddr, Matches;
    if c.overlay.At(V4).Some? {
      var first := RuleOf(c, V4, FromTunnel(c.overlay.At(V4).v));
      FromTunnelMisses(c, c.overlay.At(V4).v, q);
      assert Contract4(c) == [first] + three && ([first] + three)[1..] == three;
    } else {
      assert Contract4(c) == three;
    }
  }

  // ---- the gate on the model without the jump ----

  ghost function Overlay(c: Config, f: Family): Interval {
    if c.overlay.At(f).Some? then SpanOf(c.overlay.At(f).v) else Interval(0, 0)
  }

  ghost function Everything(): Interval {
    SpanOf(FallbackRoute(V4, 0).dst)
  }

  predicate AllBland(c: Config, rules: seq<Rule>) {
    forall r :: r in rules ==> Bland(c, V4, r)
  }

  lemma WholeSpans(c: Config, rules: seq<Rule>, f: Family)
    requires NativeExit(c) && AllBland(c, rules)
    ensures Spans(Whole(c, rules), f) <= {Overlay(c, f), Everything()}
  {
    WholeIs(c, rules);
    hide Whole, SpanOf;
    var s := Whole(c, rules);
    assert HostSpans([]) == {};
    assert RuleSpans(s.rules.At(f)) <= {Overlay(c, f)};
    assert RouteSpans(s.routes.At(f)) <= {Everything()};
  }

  lemma WholeAsks(c: Config, k: seq<Rule>, k': seq<Rule>, f: Family)
    requires NativeExit(c) && AllBland(c, k) && AllBland(c, k')
    ensures BothAsks(Whole(c, k), Whole(c, k'), f) == {}
  {
    WholeIs(c, k);
    WholeIs(c, k');
    hide Whole;
    var rules := BothRules(Whole(c, k), Whole(c, k'), f);
    assert forall r :: r in rules ==> Bland(c, V4, r);
    assert MarkSels(rules) == {} && ProtoSels(rules) == {} && TosSels(rules) == {};
    assert forall rt :: rt in BothRoutes(Whole(c, k), Whole(c, k'), f) ==> rt.tos == 0;
  }

  lemma WholeCount(c: Config, k: seq<Rule>, k': seq<Rule>)
    requires NativeExit(c) && AllBland(c, k) && AllBland(c, k')
    ensures WithinLimit(Whole(c, k), Whole(c, k'))
  {
    var s, s' := Whole(c, k), Whole(c, k');
    WholeIs(c, k);
    WholeIs(c, k');
    hide Whole, Spans, BothAsks, PointCount, FieldPoints, SpanOf;
    forall f
      ensures PointCount(s, s', f) <= MAX_POINTS
    {
      WholeSpans(c, k, f);
      WholeSpans(c, k', f);
      WholeAsks(c, k, k', f);
      assert forall r :: r in BothRules(s, s', f) ==> Bland(c, V4, r);
      FieldsPlain(s, s', f);
      FewPoints(s, s', f, Overlay(c, f), Everything());
    }
  }

  lemma ContractBland(c: Config)
    requires NativeExit(c)
    ensures AllBland(c, Strayed(c, Contract4(c))) && AllBland(c, Cleared(c, Contract4(c)))
  {
    hide OwnRules, Guard, Stray, Main, Jump, Bland;
    FixedBland(c, V4, Guard(c, V4));
    FixedBland(c, V4, Stray(V4));
    forall r | r in Contract4(c)
      ensures Bland(c, V4, r)
    {
      FixedBland(c, V4, r);
    }
  }

  lemma JudgedDst(s: State, s': State, q: Packet)
    requires JudgedOn(s, s', q)
    ensures q.dst.family == q.f && q.dst.n <= MaxAddr(q.f)
  {
    hide JudgedTraits, JudgedSource, JudgedValue;
    CandsInRange(BothSpans(s, s', q.f), q.f, q.dst.n);
  }

  lemma EmptySafe(s: State, q: Packet)
    requires s.rules.At(q.f) == []
    ensures SafeFrom(s, ByDevice, s.rules.At(q.f), q)
  {
  }

  lemma WholeGate(c: Config)
    requires NativeExit(c)
    ensures GateApproves(Whole(c, Strayed(c, Contract4(c))), Whole(c, Cleared(c, Contract4(c))))
  {
    hide JudgedOn, Whole, SafeFrom, Contract4, MaxAddr, WithinLimit, Guard, NotWorse;
    var s, s' := Whole(c, Strayed(c, Contract4(c))), Whole(c, Cleared(c, Contract4(c)));
    WholeIs(c, Strayed(c, Contract4(c)));
    WholeIs(c, Cleared(c, Contract4(c)));
    ContractBland(c);
    WholeCount(c, Strayed(c, Contract4(c)), Cleared(c, Contract4(c)));
    forall q | JudgedOn(s, s', q)
      ensures NotWorse(s, s', [q])
    {
      JudgedDst(s, s', q);
      if q.iif == c.overlayIf {
        if q.f.V4? {
          ContractStops(c, Cleared(c, Contract4(c)), q);
          GuardPasses(s', ByDevice, c, V4, Contract4(c), q);
        } else {
          EmptySafe(s', q);
        }
        KeptNotWorse(s, s', q);
      } else {
        Unprotected(s, s', q);
      }
    }
  }

  lemma Unprotected(s: State, s': State, q: Packet)
    requires q.iif != s'.spec.config.overlayIf && s'.live == NOWHERE && s'.spec.returnPath == NOWHERE
    ensures NotWorse(s, s', [q])
  {
    hide Policy.Ends, Allows;
  }

  // ---- the run ----

  function Script(c: Config): seq<Event> {
    [Look(true)] + [Foreign(Whole(c, Strayed(c, Tail(c, V4))))] + [ReadBack(true)] + [Ask(false)]
  }

  /** A look, somebody's change, a read-back that takes the word of it, and nothing to be told. */
  lemma UnseenRuns(gate: Gate, a: State, b: State)
    requires a.spec == b.spec
    ensures var v, es := View(a, None, false, false), [Look(true)] + [Foreign(b)] + [ReadBack(true)] + [Ask(false)];
            LegalRun(Features(false, true, true), gate, v, es) && Fresh(es) && Played(v, es) == View(b, Some(a), false, false)
  {
    var kind, v := Features(false, true, true), View(a, None, false, false);
    var one := [Look(true)];
    var two := one + [Foreign(b)];
    var three := two + [ReadBack(true)];
    assert [] + one == one;
    hide LegalRun, Played, Fits;
    RunNone(kind, gate, v);
    RunMore(kind, gate, v, [], Look(true));
    RunMore(kind, gate, v, one, Foreign(b));
    RunMore(kind, gate, v, two, ReadBack(true));
    RunMore(kind, gate, v, three, Ask(false));
  }

  lemma RunNone(kind: Features, gate: Gate, v: View)
    ensures LegalRun(kind, gate, v, []) && Played(v, []) == v
  {
  }

  lemma ScriptRuns(c: Config, gate: Gate)
    ensures var v := View(Whole(c, Strayed(c, Contract4(c))), None, false, false);
            && LegalRun(Features(false, true, true), gate, v, Script(c)) && Fresh(Script(c))
            && Played(v, Script(c)) == View(Whole(c, Strayed(c, Tail(c, V4))), Some(v.now), false, false)
  {
    assert Whole(c, Strayed(c, Tail(c, V4))).spec == Whole(c, Strayed(c, Contract4(c))).spec;
    hide Whole, Tail, Strayed;
    UnseenRuns(gate, Whole(c, Strayed(c, Contract4(c))), Whole(c, Strayed(c, Tail(c, V4))));
  }

  /** The stray holds whatever comes from the overlay. */
  lemma StrayHolds(c: Config, rest: seq<Rule>, p: Packet)
    requires NativeExit(c) && p.f.V4? && p.iif == c.overlayIf
    ensures Held(Whole(c, Strayed(c, rest)), ByTable, p)
  {
    var s := Whole(c, Strayed(c, rest));
    PlainYes(Stray(V4), p);
    WholeIs(c, Strayed(c, rest));
    hide Whole, Matches, Held, SafeFrom, Guard, Stray;
    HeldIsSafe(s, ByTable, p);
    GuardPasses(s, ByTable, c, V4, [Stray(V4)] + rest, p);
    StrayRejects(s, rest, p);
  }

  lemma StrayRejects(s: State, rest: seq<Rule>, p: Packet)
    requires Matches(Stray(V4), p).Yes?
    ensures SafeFrom(s, ByTable, [Stray(V4)] + rest, p)
  {
    hide Matches;
    RejectFirst(s, ByTable, Stray(V4), rest, p);
  }

  /** Without it the jump takes it past the contract. */
  lemma JumpLetsOut(c: Config, p: Packet)
    requires NativeExit(c) && p.f.V4? && p.iif == c.overlayIf
    ensures !Held(Whole(c, Cleared(c, Tail(c, V4))), ByTable, p)
  {
    var s := Whole(c, Cleared(c, Tail(c, V4)));
    WholeIs(c, Cleared(c, Tail(c, V4)));
    hide Whole, Held, SafeFrom, Guard, Tail;
    HeldIsSafe(s, ByTable, p);
    GuardPasses(s, ByTable, c, V4, Tail(c, V4), p);
    TailLetsOut(s, c, V4, ByTable, p);
  }

  /** A legal run of a kernel that tells of changes and reads rules back, with the contract in place:
      the packet is held at the start and after the other's change, the deletion is approved, and the
      packet escapes. */
  lemma StaleEscapes(c: Config, dst: Addr)
    requires NativeExit(c) && dst.family.V4?
    ensures var gate := (a: State, b: State) => GateApproves(a, b);
            var v := View(Whole(c, Strayed(c, Contract4(c))), None, false, false);
            var es := Script(c) + [Own(DelRule(Stray(V4)), true, Ok)];
            var p := FromOverlay(c, dst);
            && LegalRun(Features(false, true, true), gate, v, es)
            && Protected(v.now, p) && Held(v.now, ByTable, p) && Held(Played(v, Script(c)).now, ByTable, p)
            && !Held(Played(v, es).now, ByTable, p)
  {
    var gate := (a: State, b: State) => GateApproves(a, b);
    var kind, v := Features(false, true, true), View(Whole(c, Strayed(c, Contract4(c))), None, false, false);
    var p, req := FromOverlay(c, dst), DelRule(Stray(V4));
    hide Applied, GateApproves, Played, LegalRun, Whole, Strayed, Cleared, Held, Script, Fresh, Tail, Contract4, Stray;
    ScriptRuns(c, gate);
    StrayTaken(c, Contract4(c));
    StrayTaken(c, Tail(c, V4));
    WholeGate(c);
    WholeIs(c, Strayed(c, Contract4(c)));
    RunMore(kind, gate, v, Script(c), Own(req, true, Ok));
    StrayHolds(c, Contract4(c), p);
    StrayHolds(c, Tail(c, V4), p);
    JumpLetsOut(c, p);
  }
}
