/**
No escape over whole runs: whatever the owner adds, replaces and has approved for
deletion, and whichever of its requests fail, a protected packet that is held stays held.
*/
module Escape {
  import opened Rtnl
  import opened Contract
  import opened Copies
  import opened Policy

  // ---- the walk as a yes or no ----

  predicate AllAllowed(s: State, level: Level, outs: set<Outcome>) {
    forall o :: o in outs ==> Allows(s, level, o.place)
  }

  predicate PlacesAllowed(s: State, level: Level, places: set<Place>) {
    forall x :: x in places ==> Allows(s, level, x)
  }

  /** No walk from the first of the rules ends in an escape. */
  predicate SafeFrom(s: State, level: Level, rules: seq<Rule>, p: Packet)
    decreases |rules|
  {
    |rules| > 0 ==>
      match Matches(rules[0], p)
      case No => SafeFrom(s, level, rules[1..], p)
      case Yes => SafeTaken(s, level, rules, p)
      case Maybe => SafeTaken(s, level, rules, p) && SafeFrom(s, level, rules[1..], p)
  }

  predicate SafeTaken(s: State, level: Level, rules: seq<Rule>, p: Packet)
    requires |rules| > 0
    decreases |rules|, 0
  {
    var r, rest := rules[0], rules[1..];
    if r.action == ACT_TO_TABLE then
      PlacesAllowed(s, level, LookupPlaces(s, r, p)) && (LookupFalls(s, r, p) ==> SafeFrom(s, level, rest, p))
    else if r.action == ACT_UNREACHABLE || r.action == ACT_PROHIBIT || r.action == ACT_BLACKHOLE then true
    else if r.action == ACT_GOTO && r.jump.Some? && Target(rest, r.jump.v) < |rest| then
      SafeFrom(s, level, rest[Target(rest, r.jump.v)..], p)
    else SafeFrom(s, level, rest, p)
  }

  lemma TagAllowed(s: State, level: Level, outs: set<Outcome>, d: (By, nat))
    ensures AllAllowed(s, level, Tag(outs, d)) <==> AllAllowed(s, level, outs)
  {
    forall o | o in outs
      ensures o.(cond := [d] + o.cond) in Tag(outs, d)
    {
    }
  }

  lemma EndedAllowed(s: State, level: Level, places: set<Place>, me: By)
    ensures AllAllowed(s, level, EndedBy(places, me)) <==> PlacesAllowed(s, level, places)
    ensures EndedBy(places, me) == {} <==> places == {}
  {
    forall x | x in places
      ensures Outcome(x, me, []) in EndedBy(places, me)
    {
    }
  }

  lemma {:induction false} TakenSafe(s: State, level: Level, rules: seq<Rule>, p: Packet)
    requires |rules| > 0
    ensures AllAllowed(s, level, Taken(s, rules, p)) <==> SafeTaken(s, level, rules, p)
    decreases |rules|, 0
  {
    var r, rest := rules[0], rules[1..];
    var me := ByRule(r.priority, Items(r));
    WalkSafe(s, level, rest, p);
    if r.action == ACT_TO_TABLE {
      var places := LookupPlaces(s, r, p);
      EndedAllowed(s, level, places, me);
      TagAllowed(s, level, EndedBy(places, me), (me, 1));
      TagAllowed(s, level, Walk(s, rest, p), (me, 2));
    } else if r.action == ACT_GOTO && r.jump.Some? && Target(rest, r.jump.v) < |rest| {
      WalkSafe(s, level, rest[Target(rest, r.jump.v)..], p);
    }
  }

  /** The ends of the walk are all allowed exactly when no branch of it escapes. */
  lemma {:induction false} WalkSafe(s: State, level: Level, rules: seq<Rule>, p: Packet)
    ensures AllAllowed(s, level, Walk(s, rules, p)) <==> SafeFrom(s, level, rules, p)
    decreases |rules|
  {
    if |rules| > 0 {
      var me := ByRule(rules[0].priority, Items(rules[0]));
      WalkSafe(s, level, rules[1..], p);
      TakenSafe(s, level, rules, p);
      TagAllowed(s, level, Taken(s, rules, p), (me, 3));
      TagAllowed(s, level, Walk(s, rules[1..], p), (me, 4));
    }
  }

  lemma HeldIsSafe(s: State, level: Level, p: Packet)
    ensures Held(s, level, p) <==> SafeFrom(s, level, s.rules.At(p.f), p)
  {
    WalkSafe(s, level, s.rules.At(p.f), p);
    assert Held(s, level, p) <==> AllAllowed(s, level, Ends(s, p));
  }

  // ---- adding a rule ----

  /** No goto of the rules names the priority. */
  predicate NoGotoTo(rules: seq<Rule>, p: nat) {
    forall r :: r in rules && r.action == ACT_GOTO ==> r.jump != Some(p)
  }

  lemma {:induction false} TargetInsert(rules: seq<Rule>, r: Rule, t: nat)
    requires t != r.priority
    ensures Target(Insert(rules, r), t) < |Insert(rules, r)| <==> Target(rules, t) < |rules|
    ensures Target(rules, t) < |rules| ==>
              var to, to' := rules[Target(rules, t)..], Insert(rules, r)[Target(Insert(rules, r), t)..];
              to' == to || to' == Insert(to, r)
  {
    hide Insert, Target;
    if |rules| == 0 {
      TargetEmpty(r, t);
    } else if rules[0].priority > r.priority {
      TargetNext(r, rules, t);
      InsertFront(rules, r);
    } else {
      var rest := Insert(rules[1..], r);
      InsertNext(rules, r);
      TargetNext(rules[0], rules[1..], t);
      TargetNext(rules[0], rest, t);
      assert rules == [rules[0]] + rules[1..];
      if rules[0].priority != t {
        TargetInsert(rules[1..], r, t);
        var i, j := Target(rules[1..], t), Target(rest, t);
        assert rules[1..][i..] == rules[1 + i..] && rest[j..] == ([rules[0]] + rest)[1 + j..];
      } else {
        assert rules[0..] == rules && ([rules[0]] + rest)[0..] == [rules[0]] + rest;
      }
    }
  }

  lemma TargetEmpty(r: Rule, t: nat)
    requires t != r.priority
    ensures Target([], t) == 0 && Insert([], r) == [r] && Target([r], t) == 1
  {
  }

  lemma TargetNext(x: Rule, rest: seq<Rule>, t: nat)
    ensures Target([x] + rest, t) == if x.priority == t then 0 else 1 + Target(rest, t)
    ensures forall i :: 0 <= i <= |rest| ==> ([x] + rest)[1 + i..] == rest[i..]
  {
    assert ([x] + rest)[1..] == rest;
  }

  lemma InsertFront(rules: seq<Rule>, r: Rule)
    requires |rules| > 0 && rules[0].priority > r.priority
    ensures Insert(rules, r) == [r] + rules
  {
  }

  lemma InsertNext(rules: seq<Rule>, r: Rule)
    requires |rules| > 0 && rules[0].priority <= r.priority
    ensures Insert(rules, r) == [rules[0]] + Insert(rules[1..], r)
  {
  }

  /** Where the rule is applied to the packet itself, it keeps it held. */
  predicate Benign(s: State, level: Level, r: Rule, p: Packet) {
    || Matches(r, p).No?
    || r.action == ACT_UNREACHABLE
    || (r.action == ACT_TO_TABLE && PlacesAllowed(s, level, LookupPlaces(s, r, p)))
  }

  lemma {:induction false} InsertSafe(s: State, level: Level, rules: seq<Rule>, r: Rule, p: Packet)
    requires SortedByPriority(rules) && NoGotoTo(rules, r.priority) && Benign(s, level, r, p)
    requires SafeFrom(s, level, rules, p)
    ensures SafeFrom(s, level, Insert(rules, r), p)
    decreases |rules|
  {
    if |rules| == 0 || rules[0].priority > r.priority {
      assert Insert(rules, r)[1..] == rules;
    } else {
      assert Insert(rules, r)[0] == rules[0] && Insert(rules, r)[1..] == Insert(rules[1..], r);
      if SafeFrom(s, level, rules[1..], p) {
        InsertSafe(s, level, rules[1..], r, p);
      }
      if SafeTaken(s, level, rules, p) {
        InsertTaken(s, level, rules, r, p);
      }
    }
  }

  lemma {:induction false} InsertTaken(s: State, level: Level, rules: seq<Rule>, r: Rule, p: Packet)
    requires |rules| > 0 && rules[0].priority <= r.priority
    requires SortedByPriority(rules) && NoGotoTo(rules, r.priority) && Benign(s, level, r, p)
    requires SafeTaken(s, level, rules, p)
    ensures SafeTaken(s, level, Insert(rules, r), p)
    decreases |rules|, 0
  {
    hide Insert, SortedByPriority, NoGotoTo, Benign, LookupPlaces, LookupFalls, PlacesAllowed, Target, SafeFrom;
    var x, rest := rules[0], rules[1..];
    InsertNext(rules, r);
    DropKeeps(rules, r.priority, 1);
    assert Insert(rules, r)[1..] == Insert(rest, r);
    if SafeFrom(s, level, rest, p) {
      InsertSafe(s, level, rest, r, p);
    }
    if x.action == ACT_GOTO && x.jump.Some? {
      TargetInsert(rest, r, x.jump.v);
      if Target(rest, x.jump.v) < |rest| {
        DropKeeps(rest, r.priority, Target(rest, x.jump.v));
        InsertSafe(s, level, rest[Target(rest, x.jump.v)..], r, p);
      }
    }
  }

  lemma DropKeeps(rules: seq<Rule>, p: nat, n: nat)
    requires n <= |rules| && SortedByPriority(rules) && NoGotoTo(rules, p)
    ensures SortedByPriority(rules[n..]) && NoGotoTo(rules[n..], p)
    ensures n > 0 && rules[0].action == ACT_GOTO ==> rules[0].jump != Some(p)
  {
  }

  // ---- replacing a route ----

  lemma {:induction false} ReplaceSnoc(init: seq<Route>, last: Route, r: Route)
    ensures (exists x :: x in init && SameRoute(x, r)) ==> ReplaceIn(init + [last], r) == ReplaceIn(init, r) + [last]
    ensures !(exists x :: x in init && SameRoute(x, r)) ==>
              ReplaceIn(init + [last], r) == init + (if SameRoute(last, r) then [r] else [last, r])
  {
    if |init| == 0 {
      assert init + [last] == [last] && [last][1..] == [];
    } else if SameRoute(init[0], r) {
      assert (init + [last])[1..] == init[1..] + [last];
      assert init[0] in init;
    } else {
      assert (init + [last])[1..] == init[1..] + [last];
      ReplaceSnoc(init[1..], last, r);
      assert init == [init[0]] + init[1..];
    }
  }

  /** Placing a route among others that differ in one route of the same rank. */
  lemma {:induction false} PlaceBeside(v4: bool, pre: seq<Route>, x: Route, r: Route, post: seq<Route>, y: Route)
      returns (pre': seq<Route>, post': seq<Route>)
    requires SameRoute(x, r)
    ensures Place1(v4, pre + [x] + post, y) == pre' + [x] + post'
    ensures Place1(v4, pre + [r] + post, y) == pre' + [r] + post'
    decreases |post|
  {
    var a, b := pre + [x] + post, pre + [r] + post;
    if |post| == 0 {
      assert a[..|a| - 1] == pre && b[..|b| - 1] == pre;
      if Better(v4, y, x) {
        pre', post' := Place1(v4, pre, y), [];
        assert pre' + [x] + post' == pre' + [x] && pre' + [r] + post' == pre' + [r];
      } else {
        pre', post' := pre, [y];
        assert a + [y] == pre + [x] + [y] && b + [y] == pre + [r] + [y];
      }
    } else {
      var last := post[|post| - 1];
      assert a[|a| - 1] == last && b[|b| - 1] == last;
      assert a[..|a| - 1] == pre + [x] + post[..|post| - 1] && b[..|b| - 1] == pre + [r] + post[..|post| - 1];
      if Better(v4, y, last) {
        pre', post' := PlaceBeside(v4, pre, x, r, post[..|post| - 1], y);
        assert (pre' + [x] + post') + [last] == pre' + [x] + (post' + [last]);
        assert (pre' + [r] + post') + [last] == pre' + [r] + (post' + [last]);
        post' := post' + [last];
      } else {
        pre', post' := pre, post + [y];
        assert a + [y] == pre' + [x] + post' && b + [y] == pre' + [r] + post';
      }
    }
  }

  /** Two routes of the same rank are placed in the same spot. */
  lemma {:induction false} PlaceSplits(v4: bool, rts: seq<Route>, x: Route, r: Route) returns (pre: seq<Route>, post: seq<Route>)
    requires SameRoute(x, r)
    ensures rts == pre + post
    ensures Place1(v4, rts, x) == pre + [x] + post && Place1(v4, rts, r) == pre + [r] + post
  {
    if |rts| == 0 {
      pre, post := [], [];
    } else if Better(v4, r, rts[|rts| - 1]) {
      var last := rts[|rts| - 1];
      pre, post := PlaceSplits(v4, rts[..|rts| - 1], x, r);
      assert (pre + [x] + post) + [last] == pre + [x] + (post + [last]);
      assert (pre + [r] + post) + [last] == pre + [r] + (post + [last]);
      post := post + [last];
    } else {
      pre, post := rts, [];
    }
  }

  predicate HasSame(rts: seq<Route>, r: Route) {
    exists x :: x in rts && SameRoute(x, r)
  }

  lemma {:induction false} CandidatesReplaced(rts: seq<Route>, r: Route, p: Packet)
      returns (pre: seq<Route>, x: Route, post: seq<Route>)
    requires HasSame(rts, r) && r.dst.Contains(p.dst)
    ensures Candidates(rts, p) == pre + [x] + post && Candidates(ReplaceIn(rts, r), p) == pre + [r] + post
    ensures SameRoute(x, r)
  {
    var n := |rts| - 1;
    var init, last := rts[..n], rts[n];
    assert rts == init + [last];
    ReplaceSnoc(init, last, r);
    if HasSame(init, r) {
      var changed := ReplaceIn(init, r);
      assert (changed + [last])[..|changed|] == changed;
      pre, x, post := CandidatesReplaced(init, r, p);
      if last.dst.Contains(p.dst) {
        pre, post := PlaceBeside(p.f.V4?, pre, x, r, post, last);
      }
    } else {
      assert last in rts && SameRoute(last, r);
      assert (init + [r])[..n] == init;
      x := last;
      pre, post := PlaceSplits(p.f.V4?, Candidates(init, p), last, r);
    }
  }

  lemma {:induction false} ReplaceAppends(rts: seq<Route>, r: Route)
    requires !HasSame(rts, r)
    ensures ReplaceIn(rts, r) == rts + [r]
  {
    if |rts| > 0 {
      assert rts[0] in rts;
      ReplaceAppends(rts[1..], r);
    }
  }

  /** A replaced route stands after the same routes as before. */
  lemma ReplaceShape(rts: seq<Route>, r: Route, p: Packet) returns (pre: seq<Route>, was: seq<Route>, post: seq<Route>)
    requires r.dst.Contains(p.dst)
    ensures Candidates(rts, p) == pre + was && Candidates(ReplaceIn(rts, r), p) == pre + ([r] + post)
  {
    if HasSame(rts, r) {
      var x;
      pre, x, post := CandidatesReplaced(rts, r, p);
      was := [x] + post;
      assert pre + [x] + post == pre + was && pre + [r] + post == pre + ([r] + post);
    } else {
      ReplaceAppends(rts, r);
      assert (rts + [r])[..|rts|] == rts;
      pre, post := PlaceSplits(p.f.V4?, Candidates(rts, p), r, r);
      was := post;
      assert pre + [r] + post == pre + ([r] + post);
    }
  }

  /** A route that applies and does not fall through hides what is behind it. */
  lemma {:induction false} BehindIsHidden(s: State, r: Rule, p: Packet, pre: seq<Route>, u: Route, post: seq<Route>, was: seq<Route>)
    requires RouteApplies(s, u, p).Yes? && !FallsAt(r, u)
    ensures Falls(s, r, p, pre + ([u] + post)) ==> Falls(s, r, p, pre + was)
    ensures Answers(s, r, p, pre + ([u] + post)) <= Answers(s, r, p, pre + was) + {Disposition(u)}
  {
    if |pre| == 0 {
      assert pre + ([u] + post) == [u] + post && pre + was == was;
    } else {
      assert (pre + ([u] + post))[1..] == pre[1..] + ([u] + post) && (pre + was)[1..] == pre[1..] + was;
      BehindIsHidden(s, r, p, pre[1..], u, post, was);
    }
  }

  /** Each lookup ends in no more places and falls through no more often than it did. */
  predicate LookupsNoWorse(s: State, s': State, level: Level, rules: seq<Rule>, p: Packet) {
    forall r :: r in rules && r.action == ACT_TO_TABLE ==> LookupNoWorse(s, s', level, r, p)
  }

  predicate LookupNoWorse(s: State, s': State, level: Level, r: Rule, p: Packet) {
    && (LookupFalls(s', r, p) ==> LookupFalls(s, r, p))
    && (PlacesAllowed(s, level, LookupPlaces(s, r, p)) ==> PlacesAllowed(s', level, LookupPlaces(s', r, p)))
  }

  lemma {:induction false} RoutesSafe(s: State, s': State, level: Level, rules: seq<Rule>, p: Packet)
    requires LookupsNoWorse(s, s', level, rules, p) && SafeFrom(s, level, rules, p)
    ensures SafeFrom(s', level, rules, p)
    decreases |rules|
  {
    if |rules| > 0 {
      if SafeFrom(s, level, rules[1..], p) {
        RoutesSafe(s, s', level, rules[1..], p);
      }
      if SafeTaken(s, level, rules, p) {
        RoutesTaken(s, s', level, rules, p);
      }
    }
  }

  lemma {:induction false} RoutesTaken(s: State, s': State, level: Level, rules: seq<Rule>, p: Packet)
    requires |rules| > 0 && LookupsNoWorse(s, s', level, rules, p) && SafeTaken(s, level, rules, p)
    ensures SafeTaken(s', level, rules, p)
    decreases |rules|, 0
  {
    var r, rest := rules[0], rules[1..];
    assert r in rules;
    assert r.action == ACT_TO_TABLE ==> LookupNoWorse(s, s', level, r, p);
    if SafeFrom(s, level, rest, p) {
      RoutesSafe(s, s', level, rest, p);
    }
    if r.action == ACT_GOTO && r.jump.Some? && Target(rest, r.jump.v) < |rest| {
      RoutesSafe(s, s', level, rest[Target(rest, r.jump.v)..], p);
    }
  }

  // ---- a judged packet stands for others ----

  predicate SameForRoute(s: State, rt: Route, q: Packet, p: Packet) {
    (rt.dst.Contains(q.dst) <==> rt.dst.Contains(p.dst)) && RouteApplies(s, rt, q) == RouteApplies(s, rt, p)
  }

  predicate SameForRoutes(s: State, rts: seq<Route>, q: Packet, p: Packet) {
    forall rt :: rt in rts ==> SameForRoute(s, rt, q, p)
  }

  predicate SameForRules(rules: seq<Rule>, q: Packet, p: Packet) {
    forall r :: r in rules ==> Matches(r, q) == Matches(r, p)
  }

  predicate SameForTables(s: State, q: Packet, p: Packet) {
    && q.f == p.f && (AnswersLocally(s, q) <==> AnswersLocally(s, p))
    && forall t :: t in s.routes.At(p.f) ==> SameForRoutes(s, s.Table(p.f, t), q, p)
  }

  /** No rule, route or class of the state tells the two packets apart. */
  predicate StandsFor(s: State, q: Packet, p: Packet) {
    SameForTables(s, q, p) && SameForRules(s.rules.At(p.f), q, p) && (Protected(s, q) <==> Protected(s, p))
  }

  lemma {:induction false} CandidatesSame(s: State, rts: seq<Route>, q: Packet, p: Packet)
    requires q.f == p.f && SameForRoutes(s, rts, q, p)
    ensures Candidates(rts, q) == Candidates(rts, p)
    ensures SameForRoutes(s, Candidates(rts, p), q, p)
  {
    if |rts| > 0 {
      var last := rts[|rts| - 1];
      assert last in rts;
      CandidatesSame(s, rts[..|rts| - 1], q, p);
      if last.dst.Contains(p.dst) {
        var pre, post := PlaceSplits(p.f.V4?, Candidates(rts[..|rts| - 1], p), last, last);
      }
    }
  }

  lemma {:induction false} LookupSame(s: State, r: Rule, cands: seq<Route>, q: Packet, p: Packet)
    requires SameForRoutes(s, cands, q, p)
    ensures Answers(s, r, q, cands) == Answers(s, r, p, cands) && Falls(s, r, q, cands) == Falls(s, r, p, cands)
  {
    if |cands| > 0 {
      assert cands[0] in cands;
      LookupSame(s, r, cands[1..], q, p);
    }
  }

  lemma TableSame(s: State, r: Rule, q: Packet, p: Packet)
    requires SameForTables(s, q, p)
    ensures LookupPlaces(s, r, q) == LookupPlaces(s, r, p) && LookupFalls(s, r, q) == LookupFalls(s, r, p)
  {
    if r.table != TABLE_LOCAL && s.Known(p.f, r.table) {
      CandidatesSame(s, s.Table(p.f, r.table), q, p);
      LookupSame(s, r, Candidates(s.Table(p.f, r.table), p), q, p);
    }
  }

  lemma {:induction false} WalkSame(s: State, rules: seq<Rule>, q: Packet, p: Packet)
    requires SameForTables(s, q, p) && SameForRules(rules, q, p)
    ensures Walk(s, rules, q) == Walk(s, rules, p)
    decreases |rules|
  {
    if |rules| > 0 {
      assert rules[0] in rules;
      WalkSame(s, rules[1..], q, p);
      TakenSame(s, rules, q, p);
    }
  }

  lemma {:induction false} TakenSame(s: State, rules: seq<Rule>, q: Packet, p: Packet)
    requires |rules| > 0 && SameForTables(s, q, p) && SameForRules(rules, q, p)
    ensures Taken(s, rules, q) == Taken(s, rules, p)
    decreases |rules|, 0
  {
    hide LookupPlaces, LookupFalls, Matches;
    var r, rest := rules[0], rules[1..];
    WalkSame(s, rest, q, p);
    TableSame(s, r, q, p);
    if r.jump.Some? && Target(rest, r.jump.v) < |rest| {
      WalkSame(s, rest[Target(rest, r.jump.v)..], q, p);
    }
  }

  // ---- deleting ----

  /** Only the exit table was read, and its routes say so. */
  predicate OwnTable(s: State) {
    forall f, t :: t in s.routes.At(f) ==> t == s.spec.config.table && AllInTable(s.routes.At(f)[t], t)
  }

  predicate AllInTable(rts: seq<Route>, t: nat) {
    forall rt :: rt in rts ==> rt.table == t
  }

  predicate InTable(x: Place, t: nat) {
    x.ViaDev? ==> x.table == t
  }

  lemma {:induction false} CandidatesWithin(rts: seq<Route>, p: Packet, rt: Route)
    requires rt in Candidates(rts, p)
    ensures rt in rts && rt.dst.Contains(p.dst)
  {
    var last := rts[|rts| - 1];
    var rest := Candidates(rts[..|rts| - 1], p);
    if last.dst.Contains(p.dst) {
      var pre, post := PlaceSplits(p.f.V4?, rest, last, last);
      if rt != last {
        assert rt in rest;
        CandidatesWithin(rts[..|rts| - 1], p, rt);
      }
    } else {
      CandidatesWithin(rts[..|rts| - 1], p, rt);
    }
  }

  lemma {:induction false} AnswersFrom(s: State, r: Rule, p: Packet, cands: seq<Route>, x: Place)
    requires x in Answers(s, r, p, cands)
    ensures exists rt :: rt in cands && AnswersAt(r, rt) && x == Disposition(rt)
  {
    if x == Disposition(cands[0]) && AnswersAt(r, cands[0]) {
      assert cands[0] in cands;
    } else {
      AnswersFrom(s, r, p, cands[1..], x);
      var rt :| rt in cands[1..] && AnswersAt(r, rt) && x == Disposition(rt);
      assert rt in cands;
    }
  }

  lemma LookupInTable(s: State, r: Rule, p: Packet, x: Place)
    requires OwnTable(s) && x in LookupPlaces(s, r, p)
    ensures InTable(x, s.spec.config.table)
  {
    if r.table != TABLE_LOCAL && s.Known(p.f, r.table) {
      var rts := s.Table(p.f, r.table);
      AnswersFrom(s, r, p, Candidates(rts, p), x);
      var rt :| rt in Candidates(rts, p) && AnswersAt(r, rt) && x == Disposition(rt);
      CandidatesWithin(rts, p, rt);
      assert AllInTable(rts, r.table);
    }
  }

  predicate AllInExit(s: State, outs: set<Outcome>) {
    forall o :: o in outs ==> InTable(o.place, s.spec.config.table)
  }

  lemma {:induction false} WalkInTable(s: State, rules: seq<Rule>, p: Packet)
    requires OwnTable(s)
    ensures AllInExit(s, Walk(s, rules, p))
    decreases |rules|
  {
    if |rules| > 0 {
      WalkInTable(s, rules[1..], p);
      TakenInTable(s, rules, p);
    }
  }

  lemma {:induction false} TakenInTable(s: State, rules: seq<Rule>, p: Packet)
    requires |rules| > 0 && OwnTable(s)
    ensures AllInExit(s, Taken(s, rules, p))
    decreases |rules|, 0
  {
    var r, rest := rules[0], rules[1..];
    WalkInTable(s, rest, p);
    if r.action == ACT_TO_TABLE {
      forall x | x in LookupPlaces(s, r, p)
        ensures InTable(x, s.spec.config.table)
      {
        LookupInTable(s, r, p, x);
      }
    } else if r.jump.Some? && Target(rest, r.jump.v) < |rest| {
      WalkInTable(s, rest[Target(rest, r.jump.v)..], p);
    }
  }

  /** Same contract, addresses and interfaces. */
  predicate SameSetting(s: State, s': State) {
    && s'.spec == s.spec && s'.live == s.live && s'.locals == s.locals
    && s'.exitIdx == s.exitIdx && s'.overlayIdx == s.overlayIdx
  }

  /** A change the gate lets through keeps every packet it judged held, at either level. */
  lemma ApprovedKeepsHeld(before: State, after: State, level: Level, pts: seq<Packet>, q: Packet, p: Packet)
    requires SameSetting(before, after) && OwnTable(after)
    requires NotWorse(before, after, pts) && q in pts && StandsFor(before, q, p) && StandsFor(after, q, p)
    requires Protected(after, p) && Held(before, level, p)
    ensures Held(after, level, p)
  {
    WalkSame(before, before.rules.At(p.f), q, p);
    WalkSame(after, after.rules.At(p.f), q, p);
    WalkInTable(after, after.rules.At(p.f), p);
    forall o | o in Ends(after, p)
      ensures Allows(after, level, o.place)
    {
      if !Allows(after, ByDevice, o.place) {
        assert o in Ends(before, q);
        assert Allows(before, level, o.place);
      }
    }
  }

  // ---- what the owner adds ----

  /** A rule of the contract, or its protective copy one priority earlier. */
  ghost predicate OwnerRule(c: Config, f: Family, r: Rule) {
    exists slot :: SlotOf(c, f, slot) && WrittenFor(c, f, slot, r)
  }

  predicate WrittenFor(c: Config, f: Family, slot: Slot, r: Rule) {
    r == RuleOf(c, f, slot) || (RuleOf(c, f, slot).priority > 0 && r == CopyOf(RuleOf(c, f, slot)))
  }

  /** The exit table's routes all stop the packet, pass it on, or send it out of the tunnel. */
  predicate CleanTable(s: State) {
    forall f, t :: t in s.routes.At(f) ==> forall rt :: rt in s.routes.At(f)[t] ==> CleanRoute(s, rt)
  }

  predicate CleanRoute(s: State, rt: Route) {
    rt.rtype == ROUTE_THROW || Stops(rt) || (Disposition(rt) == ViaDev(rt.table, Some(s.exitIdx)) && s.exitIdx != 0)
  }

  /** A native overlay whose exit interface is not the loopback, with its exit table read. */
  ghost predicate Setting(s: State, level: Level) {
    && s.spec.config.IsNativeOverlay() && s.spec.config.Valid() && s.spec.config.exitIf != "lo"
    && OwnTable(s) && (forall f :: s.Known(f, s.spec.config.table))
    && (level.ByDevice? ==> CleanTable(s))
  }

  lemma ExitLookupAllowed(s: State, level: Level, r: Rule, p: Packet)
    requires Setting(s, level) && r.table == s.spec.config.table
    ensures PlacesAllowed(s, level, LookupPlaces(s, r, p))
  {
    var rts := s.Table(p.f, r.table);
    forall x | x in LookupPlaces(s, r, p)
      ensures Allows(s, level, x)
    {
      AnswersFrom(s, r, p, Candidates(rts, p), x);
      var rt :| rt in Candidates(rts, p) && AnswersAt(r, rt) && x == Disposition(rt);
      CandidatesWithin(rts, p, rt);
      assert AllInTable(rts, r.table);
      assert level.ByDevice? ==> CleanRoute(s, rt);
    }
  }

  /** Every rule the owner adds keeps a protected packet it applies to held. */
  lemma OwnerRuleBenign(s: State, level: Level, slot: Slot, r: Rule, p: Packet)
    requires Setting(s, level) && Protected(s, p) && SlotOf(s.spec.config, p.f, slot)
    requires WrittenFor(s.spec.config, p.f, slot, r)
    ensures Benign(s, level, r, p)
  {
    hide Answers, Candidates, CleanTable, OwnTable;
    if r.table == s.spec.config.table {
      ExitLookupAllowed(s, level, r, p);
    }
  }

  // ---- lookups read only the routes and the setting ----

  lemma {:induction false} CandidatesFrame(s: State, s': State, r: Rule, p: Packet, cands: seq<Route>)
    requires SameSetting(s, s')
    ensures Answers(s', r, p, cands) == Answers(s, r, p, cands) && Falls(s', r, p, cands) == Falls(s, r, p, cands)
  {
    if |cands| > 0 {
      CandidatesFrame(s, s', r, p, cands[1..]);
    }
  }

  lemma LookupFrame(s: State, s': State, level: Level, r: Rule, p: Packet)
    requires SameSetting(s, s') && s'.Table(p.f, r.table) == s.Table(p.f, r.table)
    requires s'.Known(p.f, r.table) == s.Known(p.f, r.table)
    ensures LookupNoWorse(s, s', level, r, p)
  {
    CandidatesFrame(s, s', r, p, Candidates(s.Table(p.f, r.table), p));
  }

  lemma RulesFrame(s: State, s': State, level: Level, rules: seq<Rule>, p: Packet)
    requires SameSetting(s, s') && s'.routes == s.routes && SafeFrom(s, level, rules, p)
    ensures SafeFrom(s', level, rules, p)
  {
    forall r | r in rules && r.action == ACT_TO_TABLE
      ensures LookupNoWorse(s, s', level, r, p)
    {
      LookupFrame(s, s', level, r, p);
    }
    RoutesSafe(s, s', level, rules, p);
  }

  // ---- requests ----

  datatype Request =
    | AddRule(rule: Rule)
    | PutRoute(route: Route)
    | DelRule(rule: Rule)
    | DelPriority(f: Family, priority: nat)
    | DelRoute(route: Route)
  {
    predicate Deletes() { DelRule? || DelPriority? || DelRoute? }
  }

  /** The kernel's state once a request has taken effect. */
  function Applied(s: State, req: Request): State {
    match req
    case AddRule(r) => if Duplicate(s.rules.At(r.family), r) then s else WithRule(s, r)
    case PutRoute(rt) => WithRoute(s, rt)
    case DelRule(r) => WithoutRule(s, r)
    case DelPriority(f, p) => WithoutPriority(s, f, p)
    case DelRoute(rt) => WithoutRoute(s, rt)
  }

  predicate OwnerRoute(s: State, rt: Route) {
    || rt == FallbackRoute(rt.family, s.spec.config.table)
    || (s.exitIdx != 0 && rt == TunnelRoute(rt.family, s.spec.config.table, s.exitIdx))
  }

  /** A request the owner makes: contract rules, the guard and copies, the exit table's two
      routes; anything may be asked to be deleted. */
  ghost predicate Asked(s: State, req: Request) {
    match req
    case AddRule(r) => OwnerRule(s.spec.config, r.family, r)
    case PutRoute(rt) => OwnerRoute(s, rt)
    case _ => true
  }

  /** Priorities a native overlay's contract and its copies use. */
  predicate OwnerPriority(p: nat) {
    p in {0, 1, 79, 80, 89, 90, 93, 94, 95, 96, 97, 98}
  }

  /** No rule jumps to one of the owner's priorities, and no rule throws answers of the exit
      table away. */
  predicate Tame(s: State, f: Family) {
    && SortedByPriority(s.rules.At(f))
    && forall r :: r in s.rules.At(f) ==> TameRule(s.spec.config, r)
  }

  predicate TameRule(c: Config, r: Rule) {
    && (r.action == ACT_GOTO && r.jump.Some? ==> !OwnerPriority(r.jump.v))
    && (r.action == ACT_TO_TABLE && r.table == c.table ==> r.suppressPrefixLen.None? && r.suppressIfGroup.None?)
  }

  lemma OwnerRuleTame(c: Config, f: Family, slot: Slot, r: Rule)
    requires c.IsNativeOverlay() && SlotOf(c, f, slot) && WrittenFor(c, f, slot, r)
    ensures TameRule(c, r) && OwnerPriority(r.priority) && r.family == f
  {
  }

  lemma AddKeepsHeld(s: State, level: Level, r: Rule, p: Packet)
    requires Setting(s, level) && Tame(s, r.family) && OwnerRule(s.spec.config, r.family, r)
    requires Protected(s, p) && Held(s, level, p)
    ensures Held(WithRule(s, r), level, p)
  {
    var s' := WithRule(s, r);
    var rules := s.rules.At(p.f);
    HeldIsSafe(s, level, p);
    HeldIsSafe(s', level, p);
    if p.f == r.family {
      var slot :| SlotOf(s.spec.config, p.f, slot) && WrittenFor(s.spec.config, p.f, slot, r);
      OwnerRuleBenign(s, level, slot, r, p);
      OwnerRuleTame(s.spec.config, p.f, slot, r);
      assert NoGotoTo(rules, r.priority);
      InsertSafe(s, level, rules, r, p);
      RulesFrame(s, s', level, Insert(rules, r), p);
    } else {
      RulesFrame(s, s', level, rules, p);
    }
  }

  lemma DefaultCoversAll(f: Family, a: Addr)
    requires a.family == f && a.n < Pow2(Width(f))
    ensures Prefix(Addr(f, 0), 0).Contains(a)
  {
  }

  /** Where one of the exit table's two routes goes in, it answers, and no more falls through. */
  lemma {:induction false} PutInTable(s: State, rt: Route, r: Rule, p: Packet, rts: seq<Route>)
    requires OwnerRoute(s, rt) && rt.family == p.f && p.dst.family == p.f && p.dst.n < Pow2(Width(p.f))
    requires r.suppressPrefixLen.None? && r.suppressIfGroup.None?
    ensures Falls(s, r, p, Candidates(ReplaceIn(rts, rt), p)) ==> Falls(s, r, p, Candidates(rts, p))
    ensures Answers(s, r, p, Candidates(ReplaceIn(rts, rt), p)) <= Answers(s, r, p, Candidates(rts, p)) + {Disposition(rt)}
  {
    DefaultCoversAll(p.f, p.dst);
    var pre, was, post := ReplaceShape(rts, rt, p);
    BehindIsHidden(s, r, p, pre, rt, post, was);
  }

  /** Replacing one of the exit table's two routes keeps every lookup no worse. */
  lemma PutNoWorse(s: State, level: Level, rt: Route, r: Rule, p: Packet)
    requires Setting(s, level) && OwnerRoute(s, rt) && TameRule(s.spec.config, r)
    requires p.dst.family == p.f && p.dst.n < Pow2(Width(p.f)) && r.action == ACT_TO_TABLE
    ensures LookupNoWorse(s, WithRoute(s, rt), level, r, p)
  {
    hide Candidates, ReplaceIn, Answers, Falls;
    var s' := WithRoute(s, rt);
    if r.table == s.spec.config.table && p.f == rt.family {
      var rts := s.Table(p.f, r.table);
      PutInTable(s, rt, r, p, rts);
      CandidatesFrame(s, s', r, p, Candidates(ReplaceIn(rts, rt), p));
      assert s'.Table(p.f, r.table) == ReplaceIn(rts, rt);
    } else {
      LookupFrame(s, s', level, r, p);
    }
  }

  lemma PutKeepsHeld(s: State, level: Level, rt: Route, p: Packet)
    requires Setting(s, level) && Tame(s, p.f) && OwnerRoute(s, rt)
    requires p.dst.family == p.f && p.dst.n < Pow2(Width(p.f)) && Held(s, level, p)
    ensures Held(WithRoute(s, rt), level, p)
  {
    var s' := WithRoute(s, rt);
    HeldIsSafe(s, level, p);
    HeldIsSafe(s', level, p);
    forall r | r in s.rules.At(p.f) && r.action == ACT_TO_TABLE
      ensures LookupNoWorse(s, s', level, r, p)
    {
      PutNoWorse(s, level, rt, r, p);
    }
    RoutesSafe(s, s', level, s.rules.At(p.f), p);
  }

  // ---- what every request keeps ----

  ghost predicate Steady(s: State, level: Level) {
    Setting(s, level) && Tame(s, V4) && Tame(s, V6)
  }

  lemma AddKeepsTame(s: State, r: Rule, f: Family)
    requires s.spec.config.IsNativeOverlay() && Tame(s, f) && OwnerRule(s.spec.config, r.family, r)
    ensures Tame(WithRule(s, r), f)
  {
    if f == r.family {
      var slot :| SlotOf(s.spec.config, f, slot) && WrittenFor(s.spec.config, f, slot, r);
      OwnerRuleTame(s.spec.config, f, slot, r);
      InsertSorted(s.rules.At(f), r);
      InsertMembers(s.rules.At(f), r);
    }
  }

  lemma {:induction false} ReplaceMembers(rts: seq<Route>, r: Route, x: Route)
    requires x in ReplaceIn(rts, r)
    ensures x in rts || x == r
  {
    if |rts| > 0 && !SameRoute(rts[0], r) && x != rts[0] {
      ReplaceMembers(rts[1..], r, x);
    }
  }

  lemma {:induction false} DeleteMembers(rts: seq<Route>, r: Route, x: Route)
    requires x in DeleteIn(rts, r)
    ensures x in rts
  {
    if !RouteDeleteMatches(r, rts[0]) && x != rts[0] {
      DeleteMembers(rts[1..], r, x);
    }
  }

  lemma RoutesKeepSetting(s: State, level: Level, f: Family, t: nat, rts: seq<Route>)
    requires Setting(s, level) && s.Known(f, t)
    requires forall x :: x in rts ==> x in s.Table(f, t) || (x.table == t && (level.ByDevice? ==> CleanRoute(s, x)))
    ensures Setting(s.WithTable(f, t, rts), level)
  {
    var s' := s.WithTable(f, t, rts);
    assert AllInTable(s.routes.At(f)[t], t);
    forall g, u | u in s'.routes.At(g)
      ensures u == s.spec.config.table && AllInTable(s'.routes.At(g)[u], u)
    {
      assert u in s.routes.At(g);
      assert AllInTable(s.routes.At(g)[u], u);
      assert g == f && u == t ==> s'.routes.At(g)[u] == rts;
      assert !(g == f && u == t) ==> s'.routes.At(g)[u] == s.routes.At(g)[u];
    }
    if level.ByDevice? {
      forall g, u, x | u in s'.routes.At(g) && x in s'.routes.At(g)[u]
        ensures CleanRoute(s', x)
      {
        assert u in s.routes.At(g);
        assert g == f && u == t ==> s'.routes.At(g)[u] == rts;
        assert !(g == f && u == t) ==> s'.routes.At(g)[u] == s.routes.At(g)[u];
        assert CleanRoute(s, x);
      }
    }
    forall g
      ensures s'.Known(g, s.spec.config.table)
    {
      assert s.Known(g, s.spec.config.table);
    }
  }

  lemma RulesKeepSetting(s: State, level: Level, f: Family, rs: seq<Rule>)
    requires Setting(s, level)
    ensures Setting(s.WithRules(f, rs), level)
  {
    var s' := s.WithRules(f, rs);
    assert s'.routes == s.routes;
    forall g
      ensures s'.Known(g, s.spec.config.table)
    {
      assert s.Known(g, s.spec.config.table);
    }
    if level.ByDevice? {
      forall g, u, x | u in s'.routes.At(g) && x in s'.routes.At(g)[u]
        ensures CleanRoute(s', x)
      {
        assert CleanRoute(s, x);
      }
    }
  }

  lemma FewerRulesSteady(s: State, level: Level, f: Family, rs: seq<Rule>)
    requires Steady(s, level) && SortedByPriority(rs) && forall x :: x in rs ==> x in s.rules.At(f)
    ensures Steady(s.WithRules(f, rs), level)
  {
    var s' := s.WithRules(f, rs);
    RulesKeepSetting(s, level, f, rs);
    forall g, x | x in s'.rules.At(g)
      ensures TameRule(s.spec.config, x)
    {
      assert g == f ==> s'.rules.At(g) == rs;
      assert Tame(s, g);
    }
    assert s'.rules.At(f) == rs;
  }

  /** No request changes what the others rely on. */
  lemma RequestKeepsSteady(s: State, level: Level, req: Request)
    requires Steady(s, level) && Asked(s, req)
    ensures Steady(Applied(s, req), level) && SameSetting(s, Applied(s, req))
  {
    match req
    case AddRule(r) =>
      RulesKeepSetting(s, level, r.family, Insert(s.rules.At(r.family), r));
      AddKeepsTame(s, r, V4);
      AddKeepsTame(s, r, V6);
    case PutRoute(rt) =>
      if s.Known(rt.family, rt.table) {
        forall x | x in ReplaceIn(s.Table(rt.family, rt.table), rt)
          ensures x in s.Table(rt.family, rt.table) || x == rt
        {
          ReplaceMembers(s.Table(rt.family, rt.table), rt, x);
        }
        RoutesKeepSetting(s, level, rt.family, rt.table, ReplaceIn(s.Table(rt.family, rt.table), rt));
      }
    case DelRule(r) =>
      WithoutSorted(s.rules.At(r.family), FirstMatch(s.rules.At(r.family), r));
      FewerRulesSteady(s, level, r.family, DeleteRule(s.rules.At(r.family), r));
    case DelPriority(f, q) =>
      WithoutSorted(s.rules.At(f), FirstAt(s.rules.At(f), q));
      FewerRulesSteady(s, level, f, DeletePriority(s.rules.At(f), q));
    case DelRoute(rt) =>
      if s.Known(rt.family, rt.table) {
        forall x | x in DeleteIn(s.Table(rt.family, rt.table), rt)
          ensures x in s.Table(rt.family, rt.table)
        {
          DeleteMembers(s.Table(rt.family, rt.table), rt, x);
        }
        RoutesKeepSetting(s, level, rt.family, rt.table, DeleteIn(s.Table(rt.family, rt.table), rt));
      }
  }

  // ---- runs ----

  /** One request: whether it took effect, and the packets a deletion was judged on. */
  datatype Move = Move(req: Request, done: bool, pts: seq<Packet>)

  function After(s: State, m: Move): State {
    if m.done then Applied(s, m.req) else s
  }

  function Run(s: State, moves: seq<Move>): State
    decreases |moves|
  {
    if |moves| == 0 then s else Run(After(s, moves[0]), moves[1..])
  }

  /** A deletion is approved, and on packets one of which stands for p. */
  predicate Approved(s: State, m: Move, p: Packet) {
    m.req.Deletes() ==>
      var s' := Applied(s, m.req);
      NotWorse(s, s', m.pts) && exists q :: q in m.pts && StandsFor(s, q, p) && StandsFor(s', q, p)
  }

  ghost predicate OwnerRun(s: State, moves: seq<Move>, p: Packet)
    decreases |moves|
  {
    |moves| > 0 ==>
      Asked(s, moves[0].req) && Approved(s, moves[0], p) && OwnerRun(After(s, moves[0]), moves[1..], p)
  }

  lemma MoveKeepsHeld(s: State, level: Level, m: Move, p: Packet)
    requires Steady(s, level) && Asked(s, m.req) && Approved(s, m, p)
    requires Protected(s, p) && p.dst.family == p.f && p.dst.n < Pow2(Width(p.f)) && Held(s, level, p)
    ensures Held(After(s, m), level, p)
  {
    RequestKeepsSteady(s, level, m.req);
    if m.done {
      match m.req
      case AddRule(r) => AddKeepsHeld(s, level, r, p);
      case PutRoute(rt) => PutKeepsHeld(s, level, rt, p);
      case _ =>
        var s' := Applied(s, m.req);
        var q :| q in m.pts && StandsFor(s, q, p) && StandsFor(s', q, p);
        ApprovedKeepsHeld(s, s', level, m.pts, q, p);
    }
  }

  /** No escape: through any run of the owner's requests, each taking effect or not, a protected
      packet that is held at the start is held at every moment. */
  lemma {:induction false} NoEscape(s: State, level: Level, moves: seq<Move>, p: Packet, i: nat)
    requires Steady(s, level) && OwnerRun(s, moves, p) && i <= |moves|
    requires Protected(s, p) && p.dst.family == p.f && p.dst.n < Pow2(Width(p.f)) && Held(s, level, p)
    ensures Held(Run(s, moves[..i]), level, p)
    decreases |moves|
  {
    if i > 0 {
      var m := moves[0];
      assert moves[..i][0] == m && moves[..i][1..] == moves[1..][..i - 1];
      MoveKeepsHeld(s, level, m, p);
      RequestKeepsSteady(s, level, m.req);
      NoEscape(After(s, m), level, moves[1..], p, i - 1);
    }
  }
}
