/**
What the kernel's policy routing does with a packet: the rule walk with its lookups,
every place it can end in, and the deletion gate's question whether a change opens one.
*/
module Policy {
  import opened Rtnl
  import opened Contract

  const ROUTE_UNICAST := 1
  const ROUTE_LOCAL := 2
  const ROUTE_BLACKHOLE := 6
  const ROUTE_UNREACHABLE := 7
  const ROUTE_PROHIBIT := 8
  const ROUTE_THROW := 9

  const PROTO_BOOT := 3
  const SCOPE_UNIVERSE := 0
  const SCOPE_LINK := 253
  const FALLBACK_METRIC := 4096

  datatype Route = Route(
    family: Family,
    dst: Prefix,
    table: nat,
    rtype: nat,
    scope: nat,
    protocol: nat,
    dead: bool,
    linkDown: bool,
    unresolved: bool,
    oif: Opt<nat>,
    gateway: Opt<Addr>,
    metric: nat,
    tos: nat,
    src: Opt<Prefix>,
    iif: Opt<nat>,
    via: bool,
    multiPath: bool,
    nhid: Opt<nat>,
    encap: bool
  ) {
    predicate IsDefault() { dst.len == 0 }

    /** The route applies to every packet its destination covers. */
    predicate Unconditional() { tos == 0 && src.None? && iif.None? }
  }

  function DefaultRoute(f: Family, table: nat, rtype: nat, scope: nat, oif: Opt<nat>, metric: nat): Route {
    Route(f, Prefix(Addr(f, 0), 0), table, rtype, scope, PROTO_BOOT, false, false, false, oif, None, metric,
          0, None, None, false, false, None, false)
  }

  function FallbackRoute(f: Family, table: nat): Route {
    DefaultRoute(f, table, ROUTE_UNREACHABLE, SCOPE_UNIVERSE, None, FALLBACK_METRIC)
  }

  function TunnelRoute(f: Family, table: nat, exitIdx: nat): Route {
    DefaultRoute(f, table, ROUTE_UNICAST, SCOPE_LINK, Some(exitIdx), 0)
  }

  /** The contract, the rules of both families, the routes of the tables that were read,
      and the addresses and interfaces of the namespace. */
  datatype State = State(
    spec: Spec,
    rules: Pair<seq<Rule>>,
    routes: Pair<map<nat, seq<Route>>>,
    live: Pair<seq<Addr>>,
    locals: Pair<seq<Addr>>,
    exitIdx: nat,
    overlayIdx: nat
  ) {
    predicate Known(f: Family, table: nat) { table in routes.At(f) }

    function Table(f: Family, table: nat): seq<Route> {
      if table in routes.At(f) then routes.At(f)[table] else []
    }

    function WithRules(f: Family, rs: seq<Rule>): State {
      this.(rules := rules.With(f, rs))
    }

    function WithTable(f: Family, table: nat, rts: seq<Route>): State {
      this.(routes := routes.With(f, routes.At(f)[table := rts]))
    }
  }

  // ---- what a request does ----

  function WithRule(s: State, r: Rule): State {
    s.WithRules(r.family, Insert(s.rules.At(r.family), r))
  }

  function WithoutRule(s: State, r: Rule): State {
    s.WithRules(r.family, DeleteRule(s.rules.At(r.family), r))
  }

  function WithoutPriority(s: State, f: Family, p: nat): State {
    s.WithRules(f, DeletePriority(s.rules.At(f), p))
  }

  /** The route a replace takes the place of. */
  predicate SameRoute(x: Route, r: Route) {
    x.dst == r.dst && x.tos == r.tos && x.metric == r.metric && (r.family.V4? || x.src == r.src)
  }

  function ReplaceIn(rts: seq<Route>, r: Route): seq<Route> {
    if |rts| == 0 then [r]
    else if SameRoute(rts[0], r) then [r] + rts[1..]
    else [rts[0]] + ReplaceIn(rts[1..], r)
  }

  /** A table that was not read is not tracked. */
  function WithRoute(s: State, r: Route): State {
    if s.Known(r.family, r.table) then s.WithTable(r.family, r.table, ReplaceIn(s.Table(r.family, r.table), r)) else s
  }

  /** The kernel's route delete would take x for the request. */
  predicate RouteDeleteMatches(r: Route, x: Route) {
    && x.dst == r.dst && (r.metric == 0 || x.metric == r.metric)
    && (r.oif.None? || x.oif == r.oif) && (r.gateway.None? || x.gateway == r.gateway)
    && (if r.family.V4? then
          (r.tos == 0 || x.tos == r.tos) && (r.rtype == 0 || x.rtype == r.rtype) && x.scope == r.scope
          && (r.protocol == 0 || x.protocol == r.protocol)
        else r.src.None? || r.src.v.len == 0 || x.src == r.src)
  }

  function DeleteIn(rts: seq<Route>, r: Route): seq<Route> {
    if |rts| == 0 then []
    else if RouteDeleteMatches(r, rts[0]) then rts[1..]
    else [rts[0]] + DeleteIn(rts[1..], r)
  }

  function WithoutRoute(s: State, r: Route): State {
    if s.Known(r.family, r.table) then s.WithTable(r.family, r.table, DeleteIn(s.Table(r.family, r.table), r)) else s
  }

  // ---- packets and selectors ----

  /** One point of a class of traffic: a value of every attribute a rule or route selects on. */
  datatype Packet = Packet(
    f: Family, iif: string, mark: nat, proto: nat, src: Addr, dst: Addr,
    tos: nat, sport: nat, dport: nat, uid: nat, l3: bool
  )

  datatype Tri = No | Yes | Maybe

  /** The two marks agree wherever the mask has a bit. */
  predicate MaskedEqual(a: nat, b: nat, mask: nat)
    decreases mask
  {
    mask == 0 || ((mask % 2 == 1 ==> a % 2 == b % 2) && MaskedEqual(a / 2, b / 2, mask / 2))
  }

  predicate Selects(p: Opt<Prefix>, a: Addr) {
    p.None? || p.v.len == 0 || p.v.Contains(a)
  }

  /** A raw attribute the model evaluates does not exclude the packet. */
  predicate RawSelects(u: RawAttr, p: Packet) {
    match u
    case UidRange(lo, hi) => lo <= p.uid <= hi
    case SportRange(lo, hi) => lo <= p.sport <= hi
    case DportRange(lo, hi) => lo <= p.dport <= hi
    case Dscp(v) => p.tos / 4 == v
    case OtherAttr(_, _) => true
  }

  /** The last attribute of a kind is the one that counts. */
  predicate Counts(unknown: seq<RawAttr>, i: nat)
    requires i < |unknown|
  {
    forall j :: i < j < |unknown| ==> !SameKind(unknown[i], unknown[j])
  }

  predicate SameKind(a: RawAttr, b: RawAttr) {
    || (a.UidRange? && b.UidRange?) || (a.SportRange? && b.SportRange?)
    || (a.DportRange? && b.DportRange?) || (a.Dscp? && b.Dscp?)
  }

  predicate UnknownSelects(unknown: seq<RawAttr>, p: Packet) {
    forall i :: 0 <= i < |unknown| && Counts(unknown, i) ==> RawSelects(unknown[i], p)
  }

  /** Every selector the model can evaluate accepts the packet. */
  predicate Accepts(r: Rule, p: Packet) {
    && (r.iif == "" || r.iif == p.iif)
    && (r.oif == "" || p.iif == "lo")
    && Selects(r.src, p.src)
    && Selects(r.dst, p.dst)
    && MaskedEqual(r.EffectiveMark().0, p.mark, r.EffectiveMark().1)
    && (r.ipProto.None? || r.ipProto.v == 0 || r.ipProto.v == p.proto)
    && (r.tos == 0 || r.tos == p.tos)
    && (r.l3mdev.None? || r.l3mdev.v == 0 || p.l3)
    && UnknownSelects(r.unknown, p)
  }

  /** A selector the model cannot evaluate decides the rule. */
  predicate Undecided(r: Rule, p: Packet) {
    (exists u :: u in r.unknown && u.OtherAttr?) || r.bad || r.extraFlags != 0 || (r.oif != "" && p.iif == "lo")
  }

  function Matches(r: Rule, p: Packet): Tri {
    if !Accepts(r, p) then (if r.invert then Yes else No)
    else if Undecided(r, p) then Maybe
    else if r.invert then No else Yes
  }

  // ---- lookups ----

  /** Where a lookup can end; a device that is not known is None. */
  datatype Place = Stopped | Local | ViaDev(table: nat, dev: Opt<nat>) | ViaTable(table: nat)

  predicate Stops(rt: Route) {
    rt.rtype == ROUTE_UNREACHABLE || rt.rtype == ROUTE_BLACKHOLE || rt.rtype == ROUTE_PROHIBIT
  }

  function Disposition(rt: Route): Place {
    if Stops(rt) then Stopped
    else if rt.rtype == ROUTE_UNICAST && rt.oif.Some? && !rt.multiPath && rt.nhid.None? && !rt.via && !rt.encap
    then ViaDev(rt.table, rt.oif)
    else ViaDev(rt.table, None)
  }

  function RouteApplies(s: State, rt: Route, p: Packet): Tri {
    if rt.family.V4? && rt.tos != 0 && rt.tos != p.tos then No
    else if rt.src.Some? && rt.src.v.len > 0 && !rt.src.v.Contains(p.src) then No
    else if rt.iif.Some? && p.iif == s.spec.config.overlayIf && s.overlayIdx != 0 && rt.iif.v != s.overlayIdx then No
    else if rt.iif.Some? && !(p.iif == s.spec.config.overlayIf && s.overlayIdx != 0) && p.iif == "lo" && rt.iif.v != 1 then No
    else if rt.iif.Some? && !(p.iif == s.spec.config.overlayIf && s.overlayIdx != 0) && p.iif != "lo" then Maybe
    else if rt.dead || rt.linkDown || rt.unresolved then Maybe
    else Yes
  }

  /** The kernel's order: the longest prefix, an IPv4 route with a TOS, the metric. */
  predicate Better(v4: bool, a: Route, b: Route) {
    if a.dst.len != b.dst.len then a.dst.len > b.dst.len
    else if v4 && (a.tos != 0) != (b.tos != 0) then a.tos != 0
    else a.metric < b.metric
  }

  /** A route goes before the ones it is better than, from the end. */
  function Place1(v4: bool, rts: seq<Route>, r: Route): seq<Route> {
    if |rts| == 0 then [r]
    else if Better(v4, r, rts[|rts| - 1]) then Place1(v4, rts[..|rts| - 1], r) + [rts[|rts| - 1]]
    else rts + [r]
  }

  /** The routes covering the destination, best first. */
  function Candidates(rts: seq<Route>, p: Packet): seq<Route> {
    if |rts| == 0 then []
    else
      var rest := Candidates(rts[..|rts| - 1], p);
      var r := rts[|rts| - 1];
      if r.dst.Contains(p.dst) then Place1(p.f.V4?, rest, r) else rest
  }

  /** The rule throws the route's answer away, or may: the next rule is tried. */
  predicate FallsAt(r: Rule, rt: Route) {
    || rt.rtype == ROUTE_THROW
    || (!Stops(rt) && ((r.suppressPrefixLen.Some? && rt.dst.len <= r.suppressPrefixLen.v) || r.suppressIfGroup.Some?))
  }

  /** The route's answer can end the search. */
  predicate AnswersAt(r: Rule, rt: Route) {
    rt.rtype != ROUTE_THROW
    && (Stops(rt) || !(r.suppressPrefixLen.Some? && rt.dst.len <= r.suppressPrefixLen.v))
  }

  function Answers(s: State, r: Rule, p: Packet, cands: seq<Route>): set<Place> {
    if |cands| == 0 then {}
    else
      var here := if AnswersAt(r, cands[0]) then {Disposition(cands[0])} else {};
      match RouteApplies(s, cands[0], p)
      case No => Answers(s, r, p, cands[1..])
      case Maybe => here + Answers(s, r, p, cands[1..])
      case Yes => here
  }

  predicate Falls(s: State, r: Rule, p: Packet, cands: seq<Route>) {
    |cands| == 0 ||
    match RouteApplies(s, cands[0], p)
    case No => Falls(s, r, p, cands[1..])
    case Maybe => FallsAt(r, cands[0]) || Falls(s, r, p, cands[1..])
    case Yes => FallsAt(r, cands[0])
  }

  predicate AnswersLocally(s: State, p: Packet) {
    p.dst in s.locals.At(p.f) || IsLoopback(p.dst)
  }

  /** The places a table lookup can end the search in, and whether it can fall through. */
  function LookupPlaces(s: State, r: Rule, p: Packet): set<Place> {
    if r.table == TABLE_LOCAL then (if AnswersLocally(s, p) then {Local} else {})
    else if !s.Known(p.f, r.table) then {ViaTable(r.table)}
    else Answers(s, r, p, Candidates(s.Table(p.f, r.table), p))
  }

  predicate LookupFalls(s: State, r: Rule, p: Packet) {
    if r.table == TABLE_LOCAL then !AnswersLocally(s, p)
    else if !s.Known(p.f, r.table) then true
    else Falls(s, r, p, Candidates(s.Table(p.f, r.table), p))
  }

  // ---- the rule walk ----

  datatype By = End | ByRule(priority: nat, items: Shape)

  /** An end of the walk: where, by which rule, under which undecided decisions. */
  datatype Outcome = Outcome(place: Place, decider: By, cond: seq<(By, nat)>)

  function Tag(outs: set<Outcome>, d: (By, nat)): set<Outcome> {
    set o | o in outs :: o.(cond := [d] + o.cond)
  }

  function EndedBy(places: set<Place>, me: By): set<Outcome> {
    set x | x in places :: Outcome(x, me, [])
  }

  /** The first rule with exactly this priority, or the length of the list. */
  function Target(rules: seq<Rule>, p: nat): (i: nat)
    ensures i <= |rules|
  {
    FirstAt(rules, p)
  }

  /** Every end of a packet that arrives at the first of the rules. */
  function Walk(s: State, rules: seq<Rule>, p: Packet): set<Outcome>
    decreases |rules|
  {
    if |rules| == 0 then {Outcome(Stopped, End, [])}
    else
      var r, rest := rules[0], rules[1..];
      var me := ByRule(r.priority, Items(r));
      match Matches(r, p)
      case No => Walk(s, rest, p)
      case Yes => Taken(s, rules, p)
      case Maybe => Tag(Taken(s, rules, p), (me, 3)) + Tag(Walk(s, rest, p), (me, 4))
  }

  /** The ends of a packet the first rule is applied to. */
  function Taken(s: State, rules: seq<Rule>, p: Packet): set<Outcome>
    requires |rules| > 0
    decreases |rules|, 0
  {
    var r, rest := rules[0], rules[1..];
    var me := ByRule(r.priority, Items(r));
    if r.action == ACT_TO_TABLE then
      var outs := EndedBy(LookupPlaces(s, r, p), me);
      if !LookupFalls(s, r, p) then outs
      else if outs == {} then Walk(s, rest, p)
      else Tag(outs, (me, 1)) + Tag(Walk(s, rest, p), (me, 2))
    else if r.action == ACT_UNREACHABLE || r.action == ACT_PROHIBIT || r.action == ACT_BLACKHOLE then
      {Outcome(Stopped, me, [])}
    else if r.action == ACT_GOTO && r.jump.Some? && Target(rest, r.jump.v) < |rest| then
      Walk(s, rest[Target(rest, r.jump.v)..], p)
    else Walk(s, rest, p)
  }

  function Ends(s: State, p: Packet): set<Outcome> {
    Walk(s, s.rules.At(p.f), p)
  }

  /** The walk as the code runs it: from the last rule back, the ends from each rule on kept in a
      table that jumps and fall-throughs look up. */
  method RunWalk(s: State, p: Packet) returns (outs: set<Outcome>)
    ensures outs == Ends(s, p)
  {
    hide Walk, Taken, Matches;
    var rules := s.rules.At(p.f);
    var n := |rules|;
    var sets := new set<Outcome>[n + 1](_ => {});
    sets[n] := {Outcome(Stopped, End, [])};
    WalkOpens(s, rules, n, p);
    var i := n;
    while i > 0
      invariant 0 <= i <= n && sets.Length == n + 1
      invariant forall j :: i <= j <= n ==> sets[j] == Walk(s, rules[j..], p)
    {
      i := i - 1;
      var r := rules[i];
      var me := ByRule(r.priority, Items(r));
      WalkOpens(s, rules, i, p);
      var m := Matches(r, p);
      var taken := sets[i + 1];
      if r.action == ACT_TO_TABLE {
        var found := EndedBy(LookupPlaces(s, r, p), me);
        if !LookupFalls(s, r, p) {
          taken := found;
        } else if found != {} {
          taken := Tag(found, (me, 1)) + Tag(sets[i + 1], (me, 2));
        }
      } else if r.action == ACT_UNREACHABLE || r.action == ACT_PROHIBIT || r.action == ACT_BLACKHOLE {
        taken := {Outcome(Stopped, me, [])};
      } else if r.action == ACT_GOTO && r.jump.Some? {
        var j := Target(rules[i + 1..], r.jump.v);
        if j < n - i - 1 {
          assert rules[i + 1..][j..] == rules[i + 1 + j..];
          taken := sets[i + 1 + j];
        }
      }
      if m.No? {
        sets[i] := sets[i + 1];
      } else if m.Maybe? {
        sets[i] := Tag(taken, (me, 3)) + Tag(sets[i + 1], (me, 4));
      } else {
        sets[i] := taken;
      }
    }
    assert rules[0..] == rules;
    outs := sets[0];
  }

  /** The walk from one rule of a list, in terms of the rules after it. */
  lemma WalkOpens(s: State, rules: seq<Rule>, i: nat, p: Packet)
    requires i <= |rules|
    ensures i == |rules| ==> Walk(s, rules[i..], p) == {Outcome(Stopped, End, [])}
    ensures i < |rules| ==>
              var r, on := rules[i], Walk(s, rules[i + 1..], p);
              var me, taken := ByRule(r.priority, Items(r)), Taken(s, rules[i..], p);
              && Walk(s, rules[i..], p) ==
                 (match Matches(r, p) case No => on case Yes => taken case Maybe => Tag(taken, (me, 3)) + Tag(on, (me, 4)))
              && taken ==
                 (if r.action == ACT_TO_TABLE then
                    (var outs := EndedBy(LookupPlaces(s, r, p), me);
                     if !LookupFalls(s, r, p) then outs
                     else if outs == {} then on
                     else Tag(outs, (me, 1)) + Tag(on, (me, 2)))
                  else if r.action == ACT_UNREACHABLE || r.action == ACT_PROHIBIT || r.action == ACT_BLACKHOLE then
                    {Outcome(Stopped, me, [])}
                  else if r.action == ACT_GOTO && r.jump.Some? && Target(rules[i + 1..], r.jump.v) < |rules[i + 1..]| then
                    Walk(s, rules[i + 1..][Target(rules[i + 1..], r.jump.v)..], p)
                  else on)
  {
    hide Matches, LookupPlaces, LookupFalls, EndedBy, Tag, Items;
    if i < |rules| {
      assert rules[i..][0] == rules[i] && rules[i..][1..] == rules[i + 1..];
    }
  }

  // ---- what is asked of a packet (native overlay) ----

  predicate Icmp46(p: Packet) {
    p.proto == Icmp(p.f)
  }

  /** Traffic arriving on the overlay, and ICMP the exit sends from a tunnel address. */
  predicate Protected(s: State, p: Packet) {
    if p.iif == s.spec.config.overlayIf then true
    else
      && p.iif == "lo" && !AnswersLocally(s, p) && Icmp46(p)
      && (p.src in s.live.At(p.f) || p.src in s.spec.returnPath.At(p.f))
  }

  /** How an end is judged: by the table that decided it, or by the device it leaves by. */
  datatype Level = ByTable | ByDevice

  predicate Allows(s: State, level: Level, x: Place) {
    match x
    case Stopped => true
    case ViaDev(t, d) =>
      if level.ByTable? then t == s.spec.config.table else d == Some(s.exitIdx) && s.exitIdx != 0
    case _ => false
  }

  /** No end of the packet is an escape. */
  predicate Held(s: State, level: Level, p: Packet) {
    forall o :: o in Ends(s, p) ==> Allows(s, level, o.place)
  }

  /** The gate: no judged packet gains an end that its class forbids. */
  predicate NotWorse(before: State, after: State, pts: seq<Packet>) {
    forall q :: q in pts && Protected(after, q) ==>
      forall o :: o in Ends(after, q) && !Allows(after, ByDevice, o.place) ==> o in Ends(before, q)
  }
}
