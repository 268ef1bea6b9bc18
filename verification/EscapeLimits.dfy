/**
Where the no-escape promise ends: exactly which additions keep a held packet, and for each
condition the proof needs a namespace that breaks it, whose held packet one request of the
owner lets out.
*/
module EscapeLimits {
  import opened Rtnl
  import opened Contract
  import opened Policy
  import opened Escape
  import Lookup

  /** A namespace with these IPv4 rules and exit-table routes, and nothing live. */
  function Namespace(c: Config, rules: seq<Rule>, routes: seq<Route>): State {
    var spec := Spec(c, Pair([], []), Pair(false, false), Pair(false, false));
    State(spec, Pair(rules, []), Pair(map[c.table := routes], map[c.table := []]), Pair([Addr(V4, 7)], []), Pair([], []), 5, 3)
  }

  function MainRule(): Rule {
    LookupRule(32766, V4, TABLE_MAIN)
  }

  function FromOverlay(c: Config, dst: Addr): Packet {
    Packet(V4, c.overlayIf, 0, 17, Addr(V4, 9), dst, 0, 0, 0, 0, false)
  }

  predicate Ordinary(c: Config) {
    c.Valid() && c.IsNativeOverlay() && c.exitIf != "lo" && c.overlay.v4.Some?
  }

  lemma PlainMatch(r: Rule, p: Packet)
    requires r.unknown == [] && !r.bad && r.extraFlags == 0 && r.oif == "" && !r.invert
    requires r.src.None? && r.dst.None? && r.fwMark.None? && r.fwMask.None? && r.ipProto.None? && r.tos == 0 && r.l3mdev.None?
    ensures Matches(r, p) == if r.iif == "" || r.iif == p.iif then Yes else No
  {
  }

  // ---- a goto that names a contract priority ----

  /** The rules after a priority. */
  function Beyond(rules: seq<Rule>, p: nat): seq<Rule> {
    if |rules| == 0 || rules[0].priority > p then rules else Beyond(rules[1..], p)
  }

  lemma {:induction false} InsertIsTarget(rules: seq<Rule>, r: Rule)
    requires SortedByPriority(rules) && Target(rules, r.priority) == |rules|
    ensures var all := Insert(rules, r);
            Target(all, r.priority) < |all| && all[Target(all, r.priority)..] == [r] + Beyond(rules, r.priority)
  {
    if |rules| > 0 && rules[0].priority <= r.priority {
      var all := Insert(rules, r);
      InsertIsTarget(rules[1..], r);
      assert all[1..] == Insert(rules[1..], r);
      assert all[0].priority != r.priority;
    } else {
      assert Insert(rules, r) == [r] + rules;
    }
  }

  /** A goto to a priority with no rule at it falls through. */
  lemma DanglingGotoIff(s: State, level: Level, x: Rule, rest: seq<Rule>, p: Packet)
    requires x.action == ACT_GOTO && x.jump.Some? && Target(rest, x.jump.v) == |rest| && Matches(x, p).Yes?
    ensures SafeFrom(s, level, [x] + rest, p) <==> SafeFrom(s, level, rest, p)
  {
    assert ([x] + rest)[1..] == rest;
  }

  /** Adding a rule there resolves it: the packet is then held if and only if the rules past
      that priority hold it by themselves, whatever stands in between. */
  lemma ResolvedGotoIff(s: State, level: Level, x: Rule, rest: seq<Rule>, r: Rule, p: Packet)
    requires SortedByPriority(rest) && x.priority <= r.priority && Target(rest, r.priority) == |rest|
    requires x.action == ACT_GOTO && x.jump == Some(r.priority) && Matches(x, p).Yes? && Matches(r, p).No?
    ensures SafeFrom(s, level, Insert([x] + rest, r), p) <==> SafeFrom(s, level, Beyond(rest, r.priority), p)
  {
    var all, beyond := Insert(rest, r), Beyond(rest, r.priority);
    InsertIsTarget(rest, r);
    assert ([x] + rest)[1..] == rest;
    assert Insert([x] + rest, r) == [x] + all;
    JumpsTo(s, level, x, all, p);
    assert ([r] + beyond)[1..] == beyond;
  }

  lemma JumpsTo(s: State, level: Level, x: Rule, all: seq<Rule>, p: Packet)
    requires x.action == ACT_GOTO && x.jump.Some? && Target(all, x.jump.v) < |all| && Matches(x, p).Yes?
    ensures SafeFrom(s, level, [x] + all, p) <==> SafeFrom(s, level, all[Target(all, x.jump.v)..], p)
  {
    assert ([x] + all)[1..] == all;
  }

  // ---- which additions keep a packet ----

  /** Every jump the packet can take to the rule's priority, where none is yet, lands where the
      rule and those past it hold the packet by themselves. */
  predicate JumpsLand(s: State, level: Level, rules: seq<Rule>, r: Rule, p: Packet)
    decreases |rules|
  {
    |rules| > 0 && rules[0].priority <= r.priority ==>
      match Matches(rules[0], p)
      case No => JumpsLand(s, level, rules[1..], r, p)
      case Yes => TakenLands(s, level, rules, r, p)
      case Maybe => TakenLands(s, level, rules, r, p) && JumpsLand(s, level, rules[1..], r, p)
  }

  predicate TakenLands(s: State, level: Level, rules: seq<Rule>, r: Rule, p: Packet)
    requires |rules| > 0
    decreases |rules|, 0
  {
    var x, rest := rules[0], rules[1..];
    if x.action == ACT_TO_TABLE then LookupFalls(s, x, p) ==> JumpsLand(s, level, rest, r, p)
    else if x.action == ACT_UNREACHABLE || x.action == ACT_PROHIBIT || x.action == ACT_BLACKHOLE then true
    else if x.action == ACT_GOTO && x.jump.Some? && Target(rest, x.jump.v) < |rest| then
      JumpsLand(s, level, rest[Target(rest, x.jump.v)..], r, p)
    else if x.action == ACT_GOTO && x.jump == Some(r.priority) then
      SafeFrom(s, level, [r] + Beyond(rest, r.priority), p)
    else JumpsLand(s, level, rest, r, p)
  }

  /** Where a jump leads once a rule is added. */
  lemma {:induction false} TargetAfter(rules: seq<Rule>, r: Rule, t: nat)
    requires SortedByPriority(rules)
    ensures var all := Insert(rules, r);
            && (Target(all, t) < |all| <==> Target(rules, t) < |rules| || t == r.priority)
            && (Target(rules, t) < |rules| ==>
                  var to := rules[Target(rules, t)..];
                  all[Target(all, t)..] == if t > r.priority then to else Insert(to, r))
  {
    if |rules| == 0 {
      assert Insert(rules, r) == [r];
      TargetNext(r, [], t);
    } else if rules[0].priority > r.priority {
      FrontAfter(rules, r, t);
    } else {
      TargetAfter(rules[1..], r, t);
      BehindAfter(rules, r, t);
    }
  }

  lemma FrontAfter(rules: seq<Rule>, r: Rule, t: nat)
    requires SortedByPriority(rules) && |rules| > 0 && rules[0].priority > r.priority
    ensures var all := Insert(rules, r);
            && (Target(all, t) < |all| <==> Target(rules, t) < |rules| || t == r.priority)
            && (Target(rules, t) < |rules| ==> t > r.priority && all[Target(all, t)..] == rules[Target(rules, t)..])
  {
    hide Insert;
    InsertFront(rules, r);
    TargetNext(r, rules, t);
  }

  lemma BehindAfter(rules: seq<Rule>, r: Rule, t: nat)
    requires |rules| > 0 && rules[0].priority <= r.priority
    requires var rest, all := rules[1..], Insert(rules[1..], r);
             && (Target(all, t) < |all| <==> Target(rest, t) < |rest| || t == r.priority)
             && (Target(rest, t) < |rest| ==>
                   var to := rest[Target(rest, t)..];
                   all[Target(all, t)..] == if t > r.priority then to else Insert(to, r))
    ensures var all := Insert(rules, r);
            && (Target(all, t) < |all| <==> Target(rules, t) < |rules| || t == r.priority)
            && (Target(rules, t) < |rules| ==>
                  var to := rules[Target(rules, t)..];
                  all[Target(all, t)..] == if t > r.priority then to else Insert(to, r))
  {
    hide Insert, Target;
    var x, rest, all := rules[0], rules[1..], Insert(rules[1..], r);
    InsertNext(rules, r);
    assert rules == [x] + rest;
    TargetNext(x, rest, t);
    TargetNext(x, all, t);
    assert ([x] + rest)[0..] == [x] + rest && ([x] + all)[0..] == [x] + all;
    if x.priority != t {
      var i, j := Target(rest, t), Target(all, t);
      assert rules[1 + i..] == rest[i..] && ([x] + all)[1 + j..] == all[j..];
    }
  }

  lemma DropSorted(rules: seq<Rule>, n: nat)
    requires SortedByPriority(rules) && n <= |rules|
    ensures SortedByPriority(rules[n..])
  {
  }

  /** An added rule that keeps the packets it applies to, in any namespace: a held packet stays
      held if and only if every jump it can take to that priority lands. */
  lemma {:induction false} AddKeepsIff(s: State, level: Level, rules: seq<Rule>, r: Rule, p: Packet)
    requires SortedByPriority(rules) && Benign(s, level, r, p) && SafeFrom(s, level, rules, p)
    ensures SafeFrom(s, level, Insert(rules, r), p) <==> JumpsLand(s, level, rules, r, p)
    decreases |rules|
  {
    if |rules| == 0 || rules[0].priority > r.priority {
      assert Insert(rules, r)[1..] == rules;
    } else {
      hide Insert, Target, SafeTaken, TakenLands, SortedByPriority, Benign;
      InsertNext(rules, r);
      DropSorted(rules, 1);
      assert Insert(rules, r)[0] == rules[0] && Insert(rules, r)[1..] == Insert(rules[1..], r);
      if !Matches(rules[0], p).Yes? {
        AddKeepsIff(s, level, rules[1..], r, p);
      }
      if !Matches(rules[0], p).No? {
        TakenKeepsIff(s, level, rules, r, p);
      }
    }
  }

  lemma {:induction false} TakenKeepsIff(s: State, level: Level, rules: seq<Rule>, r: Rule, p: Packet)
    requires |rules| > 0 && rules[0].priority <= r.priority
    requires SortedByPriority(rules) && Benign(s, level, r, p) && SafeTaken(s, level, rules, p)
    ensures SafeTaken(s, level, Insert(rules, r), p) <==> TakenLands(s, level, rules, r, p)
    decreases |rules|, 0
  {
    hide Insert, SortedByPriority, Benign, LookupPlaces, LookupFalls, PlacesAllowed, Target, SafeFrom, JumpsLand, Beyond;
    var x, rest := rules[0], rules[1..];
    InsertNext(rules, r);
    DropSorted(rules, 1);
    assert Insert(rules, r)[1..] == Insert(rest, r);
    if SafeFrom(s, level, rest, p) {
      AddKeepsIff(s, level, rest, r, p);
    }
    if x.action == ACT_GOTO && x.jump.Some? {
      var t := x.jump.v;
      TargetAfter(rest, r, t);
      if Target(rest, t) < |rest| {
        var to := rest[Target(rest, t)..];
        DropSorted(rest, Target(rest, t));
        AddKeepsIff(s, level, to, r, p);
        if t > r.priority {
          TargetIs(rest, t);
          PastLands(s, level, to, r, p);
        }
      } else if t == r.priority {
        InsertIsTarget(rest, r);
      }
    }
  }

  lemma TargetIs(rules: seq<Rule>, t: nat)
    ensures Target(rules, t) < |rules| ==> rules[Target(rules, t)].priority == t
  {
  }

  lemma PastLands(s: State, level: Level, to: seq<Rule>, r: Rule, p: Packet)
    requires |to| > 0 && to[0].priority > r.priority
    ensures JumpsLand(s, level, to, r, p)
  {
  }

  /** So it is for every addition of the owner, where the packet is protected. */
  lemma OwnerAddKeepsIff(s: State, level: Level, r: Rule, p: Packet)
    requires Setting(s, level) && Protected(s, p) && Held(s, level, p) && SortedByPriority(s.rules.At(p.f))
    requires r.family == p.f && OwnerRule(s.spec.config, p.f, r)
    ensures Held(WithRule(s, r), level, p) <==> JumpsLand(s, level, s.rules.At(p.f), r, p)
  {
    hide Setting, Protected, SlotOf, WrittenFor, JumpsLand, SortedByPriority, SafeFrom, Held;
    var s' := WithRule(s, r);
    var slot :| SlotOf(s.spec.config, p.f, slot) && WrittenFor(s.spec.config, p.f, slot, r);
    OwnerRuleBenign(s, level, slot, r, p);
    HeldIsSafe(s, level, p);
    HeldIsSafe(s', level, p);
    AddKeepsIff(s, level, s.rules.At(p.f), r, p);
    var all := Insert(s.rules.At(p.f), r);
    assert s'.rules.At(p.f) == all && SameSetting(s, s') && SameSetting(s', s);
    if SafeFrom(s, level, all, p) {
      RulesFrame(s, s', level, all, p);
    } else if SafeFrom(s', level, all, p) {
      RulesFrame(s', s, level, all, p);
    }
  }

  // ---- namespaces that lose a packet ----

  /** The rule goes in, and the packet that was held escapes. */
  ghost predicate AdditionLoses(s: State, level: Level, r: Rule, p: Packet) {
    && OwnerRule(s.spec.config, r.family, r) && Protected(s, p)
    && Held(s, level, p) && !Held(WithRule(s, r), level, p)
  }

  /** What stopped the packet is jumped over. */
  lemma {:induction false} GotoEscapes(c: Config, dst: Addr)
    requires Ordinary(c) && dst.family.V4?
    ensures var jump := Bare(V4, 10, ACT_GOTO, 0).(jump := Some(FROM_TUNNEL));
            var stop := RejectRule(50, V4).(iif := c.overlayIf);
            var s := Namespace(c, [jump] + [stop, MainRule()], []);
            AdditionLoses(s, ByTable, RuleOf(c, V4, FromTunnel(c.overlay.v4.v)), FromOverlay(c, dst))
  {
    var jump := Bare(V4, 10, ACT_GOTO, 0).(jump := Some(FROM_TUNNEL));
    var stop := RejectRule(50, V4).(iif := c.overlayIf);
    hide SafeFrom, Held;
    var rest := [stop, MainRule()];
    var s := Namespace(c, [jump] + rest, []);
    var r := RuleOf(c, V4, FromTunnel(c.overlay.v4.v));
    var p := FromOverlay(c, dst);
    var s' := WithRule(s, r);
    SlotRule(c, FromTunnel(c.overlay.v4.v));
    PlainMatch(jump, p);
    PlainMatch(stop, p);
    assert rest[1..] == [MainRule()] && [MainRule()][1..] == [];
    assert Target(rest, FROM_TUNNEL) == 2;
    assert Beyond(rest, FROM_TUNNEL) == [MainRule()];
    DanglingGotoIff(s, ByTable, jump, rest, p);
    HeldIsSafe(s, ByTable, p);
    ResolvedGotoIff(s', ByTable, jump, rest, r, p);
    MainEscapes(s', p);
    HeldIsSafe(s', ByTable, p);
  }

  lemma SlotRule(c: Config, slot: Slot)
    requires SlotOf(c, V4, slot)
    ensures OwnerRule(c, V4, RuleOf(c, V4, slot))
  {
    assert WrittenFor(c, V4, slot, RuleOf(c, V4, slot));
  }

  /** A rule of the owner that comes first and sends the packet where it must not go lets it out,
      whatever stopped it before. */
  lemma FirstEscapes(s: State, level: Level, slot: Slot, stop: Rule, p: Packet)
    requires var r := RuleOf(s.spec.config, V4, slot);
             && SlotOf(s.spec.config, V4, slot) && p.f.V4? && Protected(s, p) && s.rules.v4 == [stop] && r.priority < stop.priority
             && stop.action == ACT_UNREACHABLE && Matches(stop, p).Yes?
             && r.family.V4? && r.action == ACT_TO_TABLE && Matches(r, p).Yes? && !PlacesAllowed(s, level, LookupPlaces(s, r, p))
    ensures AdditionLoses(s, level, RuleOf(s.spec.config, V4, slot), p)
  {
    hide LookupPlaces, LookupFalls, Protected, SlotOf, RuleOf, PlacesAllowed, Matches;
    var r := RuleOf(s.spec.config, V4, slot);
    var s' := WithRule(s, r);
    SlotRule(s.spec.config, slot);
    HeldIsSafe(s, level, p);
    HeldIsSafe(s', level, p);
    assert [stop][1..] == [];
    assert s'.rules.v4 == [r] + [stop];
    SameLookup(s, s', level, r, p);
  }

  /** A lookup reads no rule. */
  lemma SameLookup(s: State, s': State, level: Level, r: Rule, p: Packet)
    requires SameSetting(s, s') && s'.routes == s.routes
    ensures PlacesAllowed(s', level, LookupPlaces(s', r, p)) <==> PlacesAllowed(s, level, LookupPlaces(s, r, p))
  {
    LookupFrame(s, s', level, r, p);
    LookupFrame(s', s, level, r, p);
  }

  /** Once a packet reaches the rule that looks the main table up, it escapes. */
  lemma MainEscapes(s: State, p: Packet)
    requires p.f.V4? && !s.Known(V4, TABLE_MAIN)
    ensures !SafeFrom(s, ByTable, [MainRule()], p)
  {
    PlainMatch(MainRule(), p);
    assert ViaTable(TABLE_MAIN) in LookupPlaces(s, MainRule(), p);
  }

  // ---- a rule that throws the exit table's answers away ----

  lemma TunnelFirst(f: Family, table: nat, exitIdx: nat, p: Packet)
    requires p.f == f && p.dst.family == f && p.dst.n < Pow2(Width(f))
    ensures Candidates([FallbackRoute(f, table)], p) == [FallbackRoute(f, table)]
    ensures Candidates(ReplaceIn([FallbackRoute(f, table)], TunnelRoute(f, table, exitIdx)), p) ==
            [TunnelRoute(f, table, exitIdx), FallbackRoute(f, table)]
  {
    hide Pow2, Width;
    var back, tunnel := FallbackRoute(f, table), TunnelRoute(f, table, exitIdx);
    DefaultCoversAll(f, p.dst);
    assert [back][..0] == [] && [back][1..] == [];
    assert ReplaceIn([back], tunnel) == [back, tunnel];
    assert [back, tunnel][..1] == [back];
    assert Place1(f.V4?, [], tunnel) == [tunnel];
  }

  lemma {:induction false} SuppressedLookup(s: State, r: Rule, p: Packet)
    requires r.table == s.spec.config.table != TABLE_LOCAL && r.suppressPrefixLen.Some?
    requires p.dst.family == p.f && p.dst.n < Pow2(Width(p.f))
    requires s.Known(p.f, r.table) && s.Table(p.f, r.table) == [FallbackRoute(p.f, r.table)]
    ensures LookupPlaces(s, r, p) == {Stopped} && !LookupFalls(s, r, p)
  {
    TunnelFirst(p.f, r.table, s.exitIdx, p);
  }

  lemma {:induction false} SuppressedTunnel(s: State, r: Rule, p: Packet)
    requires r.table == s.spec.config.table != TABLE_LOCAL && r.suppressPrefixLen.Some?
    requires p.dst.family == p.f && p.dst.n < Pow2(Width(p.f))
    requires s.Known(p.f, r.table) && s.Table(p.f, r.table) == [FallbackRoute(p.f, r.table)]
    ensures var s' := WithRoute(s, TunnelRoute(p.f, r.table, s.exitIdx));
            LookupPlaces(s', r, p) == {} && LookupFalls(s', r, p)
  {
    var tunnel, back := TunnelRoute(p.f, r.table, s.exitIdx), FallbackRoute(p.f, r.table);
    TunnelFirst(p.f, r.table, s.exitIdx, p);
    assert WithRoute(s, tunnel).Table(p.f, r.table) == ReplaceIn([back], tunnel);
  }

  /** With only the fallback in the exit table such a rule stops the packet; with the tunnel
      route added it passes every packet on, so one stays held if and only if the rules
      behind hold it. */
  lemma SuppressedIff(s: State, level: Level, r: Rule, rest: seq<Rule>, p: Packet)
    requires r.action == ACT_TO_TABLE && r.table == s.spec.config.table != TABLE_LOCAL && r.suppressPrefixLen.Some?
    requires Matches(r, p).Yes? && p.dst.family == p.f && p.dst.n < Pow2(Width(p.f))
    requires s.Known(p.f, r.table) && s.Table(p.f, r.table) == [FallbackRoute(p.f, r.table)]
    ensures SafeFrom(s, level, [r] + rest, p)
    ensures var s' := WithRoute(s, TunnelRoute(p.f, r.table, s.exitIdx));
            SafeFrom(s', level, [r] + rest, p) <==> SafeFrom(s', level, rest, p)
  {
    SuppressedLookup(s, r, p);
    SuppressedTunnel(s, r, p);
    assert ([r] + rest)[1..] == rest;
  }

  /** A foreign rule that looks the exit table up and throws its default routes away. */
  function Suppressor(c: Config): Rule {
    LookupRule(50, V4, c.table).(iif := c.overlayIf, suppressPrefixLen := Some(0))
  }

  /** With it a packet stopped by the fallback escapes once the tunnel route is put in. */
  lemma {:induction false} SuppressedEscapes(c: Config, dst: Addr)
    requires Ordinary(c) && dst.family.V4? && dst.n < Pow2(Width(V4))
    ensures var s := Namespace(c, [Suppressor(c)] + [MainRule()], [FallbackRoute(V4, c.table)]);
            var rt, p := TunnelRoute(V4, c.table, s.exitIdx), FromOverlay(c, dst);
            && OwnerRoute(s, rt) && Protected(s, p) && Held(s, ByTable, p) && !Held(WithRoute(s, rt), ByTable, p)
  {
    var s := Namespace(c, [Suppressor(c)] + [MainRule()], [FallbackRoute(V4, c.table)]);
    var rt, p := TunnelRoute(V4, c.table, s.exitIdx), FromOverlay(c, dst);
    var s' := WithRoute(s, rt);
    assert Matches(Suppressor(c), p).Yes?;
    assert !s'.Known(V4, TABLE_MAIN) && s'.rules.v4 == s.rules.v4;
    hide Matches, LookupPlaces, LookupFalls, SafeFrom, Pow2, TunnelRoute, FallbackRoute, WithRoute;
    SuppressedIff(s, ByTable, Suppressor(c), [MainRule()], p);
    MainEscapes(s', p);
    HeldIsSafe(s, ByTable, p);
    HeldIsSafe(s', ByTable, p);
  }

  // ---- an exit interface named lo ----

  /** ICMP the exit sends from its tunnel address. */
  function FromExit(dst: Addr): Packet {
    Packet(V4, "lo", 0, Icmp(V4), Addr(V4, 7), dst, 0, 0, 0, 0, false)
  }

  /** Rule 90 on such a configuration sends the exit's own ICMP to a client by the main table. */
  lemma LoopbackExitEscapes(c: Config, dst: Addr)
    requires c.Valid() && c.IsNativeOverlay() && c.exitIf == "lo" && c.overlay.v4.Some?
    requires c.overlay.v4.v.Contains(dst) && dst.family.V4? && !IsLoopback(dst)
    ensures AdditionLoses(Namespace(c, [RejectRule(100, V4)], []), ByTable, RuleOf(c, V4, FromTunnel(c.overlay.v4.v)), FromExit(dst))
  {
    var s, p := Namespace(c, [RejectRule(100, V4)], []), FromExit(dst);
    var r := RuleOf(c, V4, FromTunnel(c.overlay.v4.v));
    PlainMatch(RejectRule(100, V4), p);
    assert Addr(V4, 7) in s.live.v4;
    assert Protected(s, p);
    assert Matches(r, p).Yes?;
    assert ViaTable(TABLE_MAIN) in LookupPlaces(s, r, p);
    FirstEscapes(s, ByTable, FromTunnel(c.overlay.v4.v), RejectRule(100, V4), p);
  }

  // ---- a stray device in the exit table ----

  /** A default route of the exit table to a device that is not the tunnel. */
  function StrayRoute(c: Config): Route {
    DefaultRoute(V4, c.table, ROUTE_UNICAST, SCOPE_LINK, Some(9), 0)
  }

  /** Judged by the device, the rule that looks the exit table up sends overlay traffic out there. */
  lemma StrayDeviceEscapes(c: Config, dst: Addr)
    requires Ordinary(c) && dst.family.V4? && dst.n < Pow2(Width(V4))
    ensures AdditionLoses(Namespace(c, [RejectRule(100, V4)], [StrayRoute(c)]), ByDevice, RuleOf(c, V4, Ingress), FromOverlay(c, dst))
  {
    hide Pow2, Width, SafeFrom, Held;
    var s, p := Namespace(c, [RejectRule(100, V4)], [StrayRoute(c)]), FromOverlay(c, dst);
    var r, rt := RuleOf(c, V4, Ingress), StrayRoute(c);
    PlainMatch(RejectRule(100, V4), p);
    PlainMatch(r, p);
    DefaultCoversAll(V4, dst);
    assert [rt][..0] == [];
    assert Candidates([rt], p) == [rt];
    assert RouteApplies(s, rt, p).Yes?;
    assert ViaDev(c.table, Some(9)) in LookupPlaces(s, r, p);
    FirstEscapes(s, ByDevice, Ingress, RejectRule(100, V4), p);
  }

  /** The same device reached by a prefix only, beside the exit table's own two routes. */
  function PrefixTable(c: Config, pre: Prefix): seq<Route> {
    [TunnelRoute(V4, c.table, 5), FallbackRoute(V4, c.table), StrayRoute(c).(dst := pre)]
  }

  /** The longest prefix answers: the stray route inside its prefix, the tunnel outside it. */
  lemma PrefixAnswers(s: State, r: Rule, pre: Prefix, p: Packet)
    requires p.f.V4? && pre.len > 0 && p.dst.family.V4? && p.dst.n < Pow2(Width(V4))
    requires r.table == s.spec.config.table != TABLE_LOCAL && r.suppressPrefixLen.None? && r.suppressIfGroup.None?
    requires s.Known(V4, r.table) && s.Table(V4, r.table) == PrefixTable(s.spec.config, pre)
    ensures LookupPlaces(s, r, p) == {ViaDev(r.table, Some(if pre.Contains(p.dst) then 9 else 5))} && !LookupFalls(s, r, p)
  {
    hide Pow2, Width;
    DefaultCoversAll(V4, p.dst);
    var rts := PrefixTable(s.spec.config, pre);
    assert rts[0] in rts && rts[2] in rts;
    var best := Lookup.BestAnswers(s, r, p);
  }

  /** With the tunnel in the table, judged by the device, the rule that looks it up loses exactly
      the packets to the prefix. */
  lemma PrefixEscapesIff(c: Config, pre: Prefix, dst: Addr)
    requires Ordinary(c) && dst.family.V4? && dst.n < Pow2(Width(V4)) && pre.len > 0
    ensures var s := Namespace(c, [RejectRule(100, V4)], PrefixTable(c, pre));
            AdditionLoses(s, ByDevice, RuleOf(c, V4, Ingress), FromOverlay(c, dst)) <==> pre.Contains(dst)
  {
    hide Pow2, Width, SafeFrom, Held;
    var s, p := Namespace(c, [RejectRule(100, V4)], PrefixTable(c, pre)), FromOverlay(c, dst);
    var r, stop := RuleOf(c, V4, Ingress), RejectRule(100, V4);
    PlainMatch(stop, p);
    PlainMatch(r, p);
    PrefixAnswers(s, r, pre, p);
    if pre.Contains(dst) {
      assert ViaDev(c.table, Some(9)) in LookupPlaces(s, r, p);
      FirstEscapes(s, ByDevice, Ingress, stop, p);
    } else {
      FirstHolds(s, ByDevice, r, stop, p);
    }
  }

  lemma FirstHolds(s: State, level: Level, r: Rule, stop: Rule, p: Packet)
    requires p.f.V4? && r.family.V4? && s.rules.v4 == [stop] && r.priority < stop.priority
    requires stop.action == ACT_UNREACHABLE && Matches(stop, p).Yes?
    requires r.action == ACT_TO_TABLE && Matches(r, p).Yes? && PlacesAllowed(s, level, LookupPlaces(s, r, p))
    ensures Held(WithRule(s, r), level, p)
  {
    hide LookupPlaces, LookupFalls, PlacesAllowed, Matches;
    var s' := WithRule(s, r);
    HeldIsSafe(s', level, p);
    assert s'.rules.v4 == [r] + [stop] && ([r] + [stop])[1..] == [stop];
    assert SafeFrom(s', level, [stop], p);
    SameLookup(s, s', level, r, p);
  }
}
