/**
Which route of a table answers a lookup, said of the table's own routes: the answers are those of
the routes that cover the destination and may apply, with no route that does apply before them, and
before means a longer prefix, then (IPv4) a type of service, then a smaller metric, then the order
of the table.
*/
module Lookup {
  import opened Rtnl
  import opened Contract
  import opened Policy

  /** One route goes before another by what they say. */
  predicate Beats(f: Family, a: Route, b: Route) {
    || a.dst.len > b.dst.len
    || (a.dst.len == b.dst.len && f.V4? && a.tos != 0 && b.tos == 0)
    || (a.dst.len == b.dst.len && (f.V6? || (a.tos == 0 <==> b.tos == 0)) && a.metric < b.metric)
  }

  /** Or, with neither before the other, by the order of the table. */
  predicate Precedes(f: Family, rts: seq<Route>, j: nat, i: nat) {
    j < |rts| && i < |rts| && (Beats(f, rts[j], rts[i]) || (!Beats(f, rts[i], rts[j]) && j < i))
  }

  predicate Covering(rts: seq<Route>, i: nat, p: Packet) {
    i < |rts| && rts[i].dst.Contains(p.dst)
  }

  /** The route can decide the lookup: it covers the destination, may apply, and no route that covers
      it too and does apply goes before it. */
  ghost predicate CanDecide(s: State, rts: seq<Route>, i: nat, p: Packet) {
    && Covering(rts, i, p) && !RouteApplies(s, rts[i], p).No?
    && forall j: nat :: Covering(rts, j, p) && RouteApplies(s, rts[j], p).Yes? ==> !Precedes(p.f, rts, j, i)
  }

  // ---- the sorted candidates, by their places in the table ----

  lemma BetterIs(f: Family, a: Route, b: Route)
    ensures Better(f.V4?, a, b) <==> Beats(f, a, b)
  {
  }

  lemma BeatsOrder(f: Family, a: Route, b: Route, c: Route)
    ensures Beats(f, a, b) ==> !Beats(f, b, a)
    ensures Beats(f, a, b) && !Beats(f, c, b) ==> Beats(f, a, c)
    ensures !Beats(f, b, a) && Beats(f, c, a) ==> Beats(f, c, b)
  {
  }

  ghost predicate Below(order: seq<nat>, n: nat) {
    forall a :: 0 <= a < |order| ==> order[a] < n
  }

  ghost predicate Sorted(f: Family, rts: seq<Route>, order: seq<nat>) {
    Below(order, |rts|) && forall a, b :: 0 <= a < b < |order| ==> Precedes(f, rts, order[a], order[b])
  }

  ghost function RoutesAt(rts: seq<Route>, order: seq<nat>): seq<Route>
    requires Below(order, |rts|)
  {
    seq(|order|, a requires 0 <= a < |order| => rts[order[a]])
  }

  /** A route put in from the end comes behind those that go before it, and before the others. */
  lemma {:induction false} PutIn(f: Family, rts: seq<Route>, order: seq<nat>, i: nat) returns (out: seq<nat>)
    requires i < |rts| && Sorted(f, rts, order) && Below(order, i)
    ensures (forall k :: k in out <==> k in order || k == i) && Sorted(f, rts, out)
    ensures RoutesAt(rts, out) == Place1(f.V4?, RoutesAt(rts, order), rts[i])
    decreases |order|
  {
    hide Beats, Better, Precedes, Sorted;
    var n := |order|;
    if n == 0 {
      out := [i];
      OneSorted(f, rts, i);
    } else {
      var init, last := order[..n - 1], order[n - 1];
      assert order == init + [last];
      InitAndLast(f, rts, init, last);
      BetterIs(f, rts[i], rts[last]);
      if Beats(f, rts[i], rts[last]) {
        var rest := PutIn(f, rts, init, i);
        BehindLast(f, rts, init, last, i, rest);
        out := rest + [last];
      } else {
        AtTheEnd(f, rts, order, i);
        out := order + [i];
      }
    }
  }

  lemma OneSorted(f: Family, rts: seq<Route>, i: nat)
    requires i < |rts|
    ensures Sorted(f, rts, [i]) && RoutesAt(rts, [i]) == [rts[i]]
  {
  }

  lemma InitAndLast(f: Family, rts: seq<Route>, init: seq<nat>, last: nat)
    requires Sorted(f, rts, init + [last])
    ensures Sorted(f, rts, init) && last < |rts| && RoutesAt(rts, init + [last]) == RoutesAt(rts, init) + [rts[last]]
  {
    hide Beats, Precedes;
    var all := init + [last];
    assert all[|init|] == last && forall a :: 0 <= a < |init| ==> all[a] == init[a];
  }

  lemma BehindLast(f: Family, rts: seq<Route>, init: seq<nat>, last: nat, i: nat, rest: seq<nat>)
    requires i < |rts| && Sorted(f, rts, init + [last]) && last < i && Beats(f, rts[i], rts[last])
    requires Sorted(f, rts, rest) && forall k :: k in rest <==> k in init || k == i
    ensures Sorted(f, rts, rest + [last])
    ensures RoutesAt(rts, rest + [last]) == RoutesAt(rts, rest) + [rts[last]]
  {
    hide Beats;
    var all := rest + [last];
    forall a, b | 0 <= a < b < |all|
      ensures Precedes(f, rts, all[a], all[b])
    {
      if b == |rest| && all[a] != i {
        assert all[a] in rest;
        var m :| 0 <= m < |init| && init[m] == all[a];
        assert (init + [last])[m] == all[a] && (init + [last])[|init|] == last;
      }
    }
  }

  lemma AtTheEnd(f: Family, rts: seq<Route>, order: seq<nat>, i: nat)
    requires i < |rts| && Sorted(f, rts, order) && |order| > 0 && Below(order, i)
    requires !Beats(f, rts[i], rts[order[|order| - 1]])
    ensures Sorted(f, rts, order + [i]) && RoutesAt(rts, order + [i]) == RoutesAt(rts, order) + [rts[i]]
  {
    hide Beats;
    var all, last := order + [i], order[|order| - 1];
    forall a, b | 0 <= a < b < |all|
      ensures Precedes(f, rts, all[a], all[b])
    {
      if b == |order| {
        var k := order[a];
        assert k in order && all[a] == k;
        if a < |order| - 1 {
          assert Precedes(f, rts, k, last);
          BeatsOrder(f, rts[k], rts[last], rts[i]);
          BeatsOrder(f, rts[last], rts[k], rts[i]);
        }
      }
    }
  }

  lemma Longer(f: Family, rts: seq<Route>, order: seq<nat>)
    requires |rts| > 0 && Sorted(f, rts[..|rts| - 1], order)
    ensures Sorted(f, rts, order) && RoutesAt(rts, order) == RoutesAt(rts[..|rts| - 1], order)
  {
    hide Beats;
    var init := rts[..|rts| - 1];
    forall a, b | 0 <= a < b < |order|
      ensures Precedes(f, rts, order[a], order[b])
    {
      assert Precedes(f, init, order[a], order[b]);
    }
  }

  /** The candidates of a lookup are the covering routes, each once, in the kernel's order. */
  lemma {:induction false} CandidatesSorted(rts: seq<Route>, p: Packet) returns (order: seq<nat>)
    ensures Sorted(p.f, rts, order) && (forall k: nat :: k in order <==> Covering(rts, k, p))
    ensures RoutesAt(rts, order) == Candidates(rts, p)
  {
    hide Beats, Place1, Precedes;
    if |rts| == 0 {
      order := [];
    } else {
      var n := |rts| - 1;
      var rest := CandidatesSorted(rts[..n], p);
      Longer(p.f, rts, rest);
      if rts[n].dst.Contains(p.dst) {
        order := PutIn(p.f, rts, rest, n);
      } else {
        order := rest;
      }
    }
  }

  // ---- what a sorted list of candidates answers ----

  /** No candidate before the place applies, and the one there may. */
  ghost predicate Reached(s: State, cands: seq<Route>, k: nat, p: Packet) {
    && k < |cands| && !RouteApplies(s, cands[k], p).No?
    && forall m :: 0 <= m < k ==> !RouteApplies(s, cands[m], p).Yes?
  }

  lemma ReachedNext(s: State, cands: seq<Route>, k: nat, p: Packet)
    requires |cands| > 0
    ensures k > 0 ==> (Reached(s, cands, k, p) <==> !RouteApplies(s, cands[0], p).Yes? && Reached(s, cands[1..], k - 1, p))
  {
    hide RouteApplies;
    if k > 0 && Reached(s, cands, k, p) {
      assert forall m :: 0 <= m < k - 1 ==> cands[1..][m] == cands[m + 1];
    } else if k > 0 && !RouteApplies(s, cands[0], p).Yes? && Reached(s, cands[1..], k - 1, p) {
      forall m | 0 <= m < k
        ensures !RouteApplies(s, cands[m], p).Yes?
      {
        assert m > 0 ==> cands[m] == cands[1..][m - 1];
      }
    }
  }

  lemma {:induction false} AnswersAre(s: State, r: Rule, p: Packet, cands: seq<Route>, x: Place)
    ensures x in Answers(s, r, p, cands)
            <==> exists k: nat :: Reached(s, cands, k, p) && AnswersAt(r, cands[k]) && x == Disposition(cands[k])
  {
    hide RouteApplies, AnswersAt, Disposition;
    if |cands| > 0 {
      AnswersAre(s, r, p, cands[1..], x);
      if x in Answers(s, r, p, cands) {
        if !RouteApplies(s, cands[0], p).No? && AnswersAt(r, cands[0]) && x == Disposition(cands[0]) {
          assert Reached(s, cands, 0, p);
        } else {
          var k: nat :| Reached(s, cands[1..], k, p) && AnswersAt(r, cands[1..][k]) && x == Disposition(cands[1..][k]);
          ReachedNext(s, cands, k + 1, p);
          assert Reached(s, cands, k + 1, p);
        }
      }
      if k: nat :| Reached(s, cands, k, p) && AnswersAt(r, cands[k]) && x == Disposition(cands[k]) {
        ReachedNext(s, cands, k, p);
        if k > 0 {
          assert Reached(s, cands[1..], k - 1, p);
        }
      }
    }
  }

  lemma {:induction false} FallsAre(s: State, r: Rule, p: Packet, cands: seq<Route>)
    ensures Falls(s, r, p, cands)
            <==> (|| (exists k: nat :: Reached(s, cands, k, p) && FallsAt(r, cands[k]))
                  || forall k :: 0 <= k < |cands| ==> !RouteApplies(s, cands[k], p).Yes?)
  {
    hide RouteApplies, FallsAt;
    if |cands| > 0 {
      FallsAre(s, r, p, cands[1..]);
      if Falls(s, r, p, cands) {
        if !RouteApplies(s, cands[0], p).No? && FallsAt(r, cands[0]) {
          assert Reached(s, cands, 0, p);
        } else if k: nat :| Reached(s, cands[1..], k, p) && FallsAt(r, cands[1..][k]) {
          ReachedNext(s, cands, k + 1, p);
          assert Reached(s, cands, k + 1, p);
        } else {
          assert forall k :: 0 < k < |cands| ==> cands[k] == cands[1..][k - 1];
        }
      }
      if k: nat :| Reached(s, cands, k, p) && FallsAt(r, cands[k]) {
        ReachedNext(s, cands, k, p);
        if k > 0 {
          assert Reached(s, cands[1..], k - 1, p);
        }
      } else if forall k :: 0 <= k < |cands| ==> !RouteApplies(s, cands[k], p).Yes? {
        assert forall k :: 0 <= k < |cands| - 1 ==> cands[1..][k] == cands[k + 1];
      }
    }
  }

  /** A candidate is reached where its route can decide. */
  lemma ReachedIs(s: State, rts: seq<Route>, order: seq<nat>, k: nat, p: Packet)
    requires Sorted(p.f, rts, order) && k < |order| && forall m: nat :: m in order <==> Covering(rts, m, p)
    ensures Reached(s, RoutesAt(rts, order), k, p) <==> CanDecide(s, rts, order[k], p)
  {
    hide RouteApplies, Beats;
    var cands, i := RoutesAt(rts, order), order[k];
    assert i in order;
    if Reached(s, cands, k, p) {
      forall j: nat | Covering(rts, j, p) && RouteApplies(s, rts[j], p).Yes?
        ensures !Precedes(p.f, rts, j, i)
      {
        var m :| 0 <= m < |order| && order[m] == j;
        assert cands[m] == rts[j];
        BeatsOrder(p.f, rts[i], rts[j], rts[i]);
        assert m >= k;
      }
    }
    if CanDecide(s, rts, i, p) {
      forall m | 0 <= m < k
        ensures !RouteApplies(s, cands[m], p).Yes?
      {
        assert order[m] in order && Precedes(p.f, rts, order[m], i);
        assert Covering(rts, order[m], p);
      }
    }
  }

  // ---- the lookup ----

  /** The places a lookup can end in are the dispositions of the routes that can decide it and whose
      answer stands; it can fall through exactly if no covering route applies for certain, or a route
      that can decide it falls. */
  lemma LookupIs(s: State, r: Rule, p: Packet, x: Place)
    requires r.table != TABLE_LOCAL && s.Known(p.f, r.table)
    ensures var rts := s.Table(p.f, r.table);
            && (x in LookupPlaces(s, r, p)
                <==> exists i: nat :: CanDecide(s, rts, i, p) && AnswersAt(r, rts[i]) && x == Disposition(rts[i]))
            && (LookupFalls(s, r, p)
                <==> (|| (exists i: nat :: CanDecide(s, rts, i, p) && FallsAt(r, rts[i]))
                      || forall i: nat :: Covering(rts, i, p) ==> !RouteApplies(s, rts[i], p).Yes?))
  {
    hide RouteApplies, AnswersAt, FallsAt, Disposition, Answers, Falls, Candidates, Sorted, Covering;
    var rts := s.Table(p.f, r.table);
    var order := CandidatesSorted(rts, p);
    var cands := Candidates(rts, p);
    AnswersAre(s, r, p, cands, x);
    FallsAre(s, r, p, cands);
    PlacesAre(s, r, p, rts, order, x);
  }

  lemma PlacesAre(s: State, r: Rule, p: Packet, rts: seq<Route>, order: seq<nat>, x: Place)
    requires Sorted(p.f, rts, order) && forall m: nat :: m in order <==> Covering(rts, m, p)
    ensures var cands := RoutesAt(rts, order);
            && ((exists k: nat :: Reached(s, cands, k, p) && AnswersAt(r, cands[k]) && x == Disposition(cands[k]))
                <==> exists i: nat :: CanDecide(s, rts, i, p) && AnswersAt(r, rts[i]) && x == Disposition(rts[i]))
            && ((exists k: nat :: Reached(s, cands, k, p) && FallsAt(r, cands[k]))
                <==> exists i: nat :: CanDecide(s, rts, i, p) && FallsAt(r, rts[i]))
            && ((forall k :: 0 <= k < |cands| ==> !RouteApplies(s, cands[k], p).Yes?)
                <==> forall i: nat :: Covering(rts, i, p) ==> !RouteApplies(s, rts[i], p).Yes?)
  {
    hide RouteApplies, AnswersAt, FallsAt, Disposition, Precedes;
    var cands := RoutesAt(rts, order);
    forall k: nat | k < |order|
      ensures Reached(s, cands, k, p) <==> CanDecide(s, rts, order[k], p)
      ensures cands[k] == rts[order[k]] && order[k] in order
    {
      ReachedIs(s, rts, order, k, p);
    }
    forall i: nat | Covering(rts, i, p)
      ensures exists k: nat :: k < |order| && order[k] == i
    {
      assert i in order;
    }
  }

  /** Where every covering route applies and none is thrown away, one route answers: of the covering
      routes none has a longer prefix, nor (IPv4, as long) a type of service where it has none, nor
      (alike in both) a smaller metric. */
  lemma BestAnswers(s: State, r: Rule, p: Packet) returns (best: Route)
    requires r.table != TABLE_LOCAL && s.Known(p.f, r.table)
    requires exists rt :: rt in s.Table(p.f, r.table) && rt.dst.Contains(p.dst)
    requires forall rt :: rt in s.Table(p.f, r.table) && rt.dst.Contains(p.dst) ==>
                            RouteApplies(s, rt, p).Yes? && AnswersAt(r, rt) && !FallsAt(r, rt)
    ensures best in s.Table(p.f, r.table) && best.dst.Contains(p.dst)
    ensures LookupPlaces(s, r, p) == {Disposition(best)} && !LookupFalls(s, r, p)
    ensures forall rt :: rt in s.Table(p.f, r.table) && rt.dst.Contains(p.dst) ==>
                           && rt.dst.len <= best.dst.len
                           && (p.f.V4? && rt.dst.len == best.dst.len && rt.tos != 0 ==> best.tos != 0)
                           && (rt.dst.len == best.dst.len && (p.f.V4? ==> (rt.tos == 0 <==> best.tos == 0)) ==> best.metric <= rt.metric)
  {
    hide RouteApplies, AnswersAt, FallsAt, Disposition, Candidates, Answers, Falls;
    var rts := s.Table(p.f, r.table);
    var order := CandidatesSorted(rts, p);
    var rt :| rt in rts && rt.dst.Contains(p.dst);
    var n: nat :| n < |rts| && rts[n] == rt;
    assert Covering(rts, n, p);
    assert n in order && order[0] in order;
    best := rts[order[0]];
    FirstDecides(s, r, p, order);
    forall y | y in rts && y.dst.Contains(p.dst)
      ensures !Beats(p.f, y, best)
    {
      var j: nat :| j < |rts| && rts[j] == y;
      assert Covering(rts, j, p);
      var m :| 0 <= m < |order| && order[m] == j;
      BeatsOrder(p.f, y, best, y);
      BeatsOrder(p.f, best, best, best);
    }
  }

  lemma FirstDecides(s: State, r: Rule, p: Packet, order: seq<nat>)
    requires r.table != TABLE_LOCAL && s.Known(p.f, r.table) && |order| > 0
    requires Below(order, |s.Table(p.f, r.table)|) && RoutesAt(s.Table(p.f, r.table), order) == Candidates(s.Table(p.f, r.table), p)
    requires var rt := s.Table(p.f, r.table)[order[0]]; RouteApplies(s, rt, p).Yes? && AnswersAt(r, rt) && !FallsAt(r, rt)
    ensures LookupPlaces(s, r, p) == {Disposition(s.Table(p.f, r.table)[order[0]])} && !LookupFalls(s, r, p)
  {
    hide RouteApplies, AnswersAt, FallsAt, Disposition, Candidates;
    assert Candidates(s.Table(p.f, r.table), p)[0] == s.Table(p.f, r.table)[order[0]];
  }

  // ---- the walk, as the paths through the rules ----

  predicate Stopping(r: Rule) {
    r.action == ACT_UNREACHABLE || r.action == ACT_PROHIBIT || r.action == ACT_BLACKHOLE
  }

  /** The first rule behind one that has the priority it jumps to. */
  predicate JumpsTo(rules: seq<Rule>, i: nat, j: nat) {
    && i < j < |rules| && rules[i].action == ACT_GOTO && rules[i].jump == Some(rules[j].priority)
    && forall k :: i < k < j ==> rules[k].priority != rules[j].priority
  }

  /** The walk can go from one rule on to another: past a rule that may not match, past a lookup
      that can fall, to the first later rule a goto names, and past everything that neither looks up
      nor stops nor jumps. */
  ghost predicate GoesOn(s: State, rules: seq<Rule>, i: nat, j: nat, p: Packet) {
    && i < |rules|
    && (|| (j == i + 1 && !Matches(rules[i], p).Yes?)
        || (!Matches(rules[i], p).No? && JumpsTo(rules, i, j))
        || (&& j == i + 1 && !Matches(rules[i], p).No? && !Stopping(rules[i])
            && (rules[i].action == ACT_TO_TABLE ==> LookupFalls(s, rules[i], p))
            && !exists k: nat :: JumpsTo(rules, i, k)))
  }

  /** The walk can end at a rule that may match, by its lookup or because it stops; and past the last. */
  predicate EndsAt(s: State, rules: seq<Rule>, i: nat, p: Packet, x: Place, d: By) {
    if i < |rules| then
      && !Matches(rules[i], p).No? && d == ByRule(rules[i].priority, Items(rules[i]))
      && (|| (rules[i].action == ACT_TO_TABLE && x in LookupPlaces(s, rules[i], p))
          || (Stopping(rules[i]) && x == Stopped))
    else i == |rules| && x == Stopped && d == End
  }

  ghost predicate Path(s: State, rules: seq<Rule>, p: Packet, path: seq<nat>) {
    |path| > 0 && forall k :: 0 <= k < |path| - 1 ==> GoesOn(s, rules, path[k], path[k + 1], p)
  }

  /** A path from one rule leads to an end. */
  ghost predicate Leads(s: State, rules: seq<Rule>, i: nat, p: Packet, path: seq<nat>, x: Place, d: By) {
    Path(s, rules, p, path) && path[0] == i && EndsAt(s, rules, path[|path| - 1], p, x, d)
  }

  ghost predicate HasEnd(outs: set<Outcome>, x: Place, d: By) {
    exists o :: o in outs && o.place == x && o.decider == d
  }

  lemma TagKeeps(outs: set<Outcome>, tag: (By, nat), x: Place, d: By)
    ensures HasEnd(Tag(outs, tag), x, d) <==> HasEnd(outs, x, d)
  {
    if o :| o in outs && o.place == x && o.decider == d {
      assert o.(cond := [tag] + o.cond) in Tag(outs, tag);
    }
  }

  lemma EndedByKeeps(places: set<Place>, me: By, x: Place, d: By)
    ensures HasEnd(EndedBy(places, me), x, d) <==> x in places && d == me
    ensures EndedBy(places, me) == {} <==> places == {}
  {
    forall y | y in places
      ensures Outcome(y, me, []) in EndedBy(places, me)
    {
    }
  }

  lemma TargetIs(rules: seq<Rule>, i: nat, j: nat)
    requires i < |rules| && rules[i].action == ACT_GOTO && rules[i].jump.Some?
    ensures var rest := rules[i + 1..];
            JumpsTo(rules, i, j) <==> Target(rest, rules[i].jump.v) < |rest| && j == i + 1 + Target(rest, rules[i].jump.v)
  {
    var rest := rules[i + 1..];
    FirstAtIs(rest, rules[i].jump.v);
    assert forall k :: i < k < |rules| ==> rules[k] == rest[k - i - 1];
  }

  lemma {:induction false} FirstAtIs(rules: seq<Rule>, p: nat)
    ensures forall k :: 0 <= k < FirstAt(rules, p) ==> rules[k].priority != p
    ensures FirstAt(rules, p) < |rules| ==> rules[FirstAt(rules, p)].priority == p
  {
    if |rules| > 0 {
      FirstAtIs(rules[1..], p);
    }
  }

  /** One rule of the walk: it ends here, or the ends are those of a rule it can go on to. */
  lemma WalkSteps(s: State, rules: seq<Rule>, i: nat, p: Packet, x: Place, d: By)
    requires i <= |rules|
    ensures HasEnd(Walk(s, rules[i..], p), x, d)
            <==> EndsAt(s, rules, i, p, x, d)
                 || exists j: nat :: j <= |rules| && GoesOn(s, rules, i, j, p) && HasEnd(Walk(s, rules[j..], p), x, d)
  {
    hide Matches, LookupPlaces, LookupFalls, Items, Walk, Taken, EndedBy, Tag, Target, HasEnd;
    WalkOpens(s, rules, i, p);
    if i == |rules| {
      NoMore(x, d);
    } else {
      TakenSteps(s, rules, i, p, x, d);
      var me := ByRule(rules[i].priority, Items(rules[i]));
      TagKeeps(Taken(s, rules[i..], p), (me, 3), x, d);
      TagKeeps(Walk(s, rules[i + 1..], p), (me, 4), x, d);
      UnionHas(Tag(Taken(s, rules[i..], p), (me, 3)), Tag(Walk(s, rules[i + 1..], p), (me, 4)), x, d);
    }
  }

  lemma NoMore(x: Place, d: By)
    ensures HasEnd({Outcome(Stopped, End, [])}, x, d) <==> x == Stopped && d == End
  {
    if x == Stopped && d == End {
      assert Outcome(Stopped, End, []) in {Outcome(Stopped, End, [])};
    }
  }

  lemma OneEnd(me: By, x: Place, d: By)
    ensures HasEnd({Outcome(Stopped, me, [])}, x, d) <==> x == Stopped && d == me
  {
    if x == Stopped && d == me {
      assert Outcome(Stopped, me, []) in {Outcome(Stopped, me, [])};
    }
  }

  lemma UnionHas(a: set<Outcome>, b: set<Outcome>, x: Place, d: By)
    ensures HasEnd(a + b, x, d) <==> HasEnd(a, x, d) || HasEnd(b, x, d)
  {
    if o :| o in a && o.place == x && o.decider == d {
      assert o in a + b;
    }
    if o :| o in b && o.place == x && o.decider == d {
      assert o in a + b;
    }
  }

  /** The rule applied: it ends here or goes on as a rule that matches does. */
  lemma TakenSteps(s: State, rules: seq<Rule>, i: nat, p: Packet, x: Place, d: By)
    requires i < |rules|
    ensures var me := ByRule(rules[i].priority, Items(rules[i]));
            var ends := d == me && ((rules[i].action == ACT_TO_TABLE && x in LookupPlaces(s, rules[i], p)) || (Stopping(rules[i]) && x == Stopped));
            var next := HasEnd(Walk(s, rules[i + 1..], p), x, d);
            HasEnd(Taken(s, rules[i..], p), x, d)
            <==> (|| ends
                  || (exists j: nat :: j <= |rules| && JumpsTo(rules, i, j) && HasEnd(Walk(s, rules[j..], p), x, d))
                  || (&& !Stopping(rules[i]) && (rules[i].action == ACT_TO_TABLE ==> LookupFalls(s, rules[i], p))
                      && (!exists k: nat :: JumpsTo(rules, i, k)) && next))
  {
    hide Matches, LookupPlaces, LookupFalls, Items, Walk, Taken, EndedBy, Tag, HasEnd, Target;
    WalkOpens(s, rules, i, p);
    var r := rules[i];
    var me, on := ByRule(r.priority, Items(r)), Walk(s, rules[i + 1..], p);
    if r.action == ACT_TO_TABLE {
      var outs := EndedBy(LookupPlaces(s, r, p), me);
      EndedByKeeps(LookupPlaces(s, r, p), me, x, d);
      TagKeeps(outs, (me, 1), x, d);
      TagKeeps(on, (me, 2), x, d);
      UnionHas(Tag(outs, (me, 1)), Tag(on, (me, 2)), x, d);
    } else if Stopping(r) {
      OneEnd(me, x, d);
    } else if r.action == ACT_GOTO && r.jump.Some? {
      var t := Target(rules[i + 1..], r.jump.v);
      forall j: nat
        ensures JumpsTo(rules, i, j) <==> t < |rules[i + 1..]| && j == i + 1 + t
      {
        TargetIs(rules, i, j);
      }
      if t < |rules[i + 1..]| {
        assert rules[i + 1..][t..] == rules[i + 1 + t..] && JumpsTo(rules, i, i + 1 + t);
      }
    }
  }

  /** The walk's ends from a rule are those a path from it leads to. */
  lemma {:induction false} PathsAre(s: State, rules: seq<Rule>, i: nat, p: Packet, x: Place, d: By)
    requires i <= |rules|
    ensures HasEnd(Walk(s, rules[i..], p), x, d) <==> exists path :: Leads(s, rules, i, p, path, x, d)
    decreases |rules| - i
  {
    hide EndsAt, GoesOn, HasEnd, Walk;
    WalkSteps(s, rules, i, p, x, d);
    if EndsAt(s, rules, i, p, x, d) {
      assert Leads(s, rules, i, p, [i], x, d);
    } else if j: nat :| j <= |rules| && GoesOn(s, rules, i, j, p) && HasEnd(Walk(s, rules[j..], p), x, d) {
      GoesForward(s, rules, i, j, p);
      PathsAre(s, rules, j, p, x, d);
      var path :| Leads(s, rules, j, p, path, x, d);
      LongerPath(s, rules, i, p, path, x, d);
    }
    if path :| Leads(s, rules, i, p, path, x, d) {
      if |path| > 1 {
        GoesForward(s, rules, i, path[1], p);
        ShorterPath(s, rules, i, p, path, x, d);
        PathsAre(s, rules, path[1], p, x, d);
      }
    }
  }

  lemma GoesForward(s: State, rules: seq<Rule>, i: nat, j: nat, p: Packet)
    requires GoesOn(s, rules, i, j, p)
    ensures i < j <= |rules|
  {
  }

  lemma LongerPath(s: State, rules: seq<Rule>, i: nat, p: Packet, path: seq<nat>, x: Place, d: By)
    requires |path| > 0 && GoesOn(s, rules, i, path[0], p) && Leads(s, rules, path[0], p, path, x, d)
    ensures Leads(s, rules, i, p, [i] + path, x, d)
  {
    hide EndsAt, GoesOn;
    var all := [i] + path;
    assert forall k :: 0 < k < |all| ==> all[k] == path[k - 1];
  }

  lemma ShorterPath(s: State, rules: seq<Rule>, i: nat, p: Packet, path: seq<nat>, x: Place, d: By)
    requires Leads(s, rules, i, p, path, x, d) && |path| > 1
    ensures Leads(s, rules, path[1], p, path[1..], x, d)
  {
    hide EndsAt, GoesOn;
  }

  /** A packet can end somewhere by a rule if and only if a path from the first rule leads there. */
  lemma EndsAre(s: State, p: Packet, x: Place, d: By)
    ensures (exists o :: o in Ends(s, p) && o.place == x && o.decider == d)
            <==> exists path :: Leads(s, s.rules.At(p.f), 0, p, path, x, d)
  {
    hide Leads, Walk;
    PathsAre(s, s.rules.At(p.f), 0, p, x, d);
    assert s.rules.At(p.f)[0..] == s.rules.At(p.f);
  }
}
