/**
Carrying out the exit table's actions: with every request granted the table ends exact, unless a
delete for a stray route would take one of the contract's own.
*/
module ExitRoutes {
  import opened Rtnl
  import opened Contract
  import opened Policy
  import opened Pass

  /** The table after one action is granted. */
  function OneDone(rts: seq<Route>, act: RouteAction, removals: bool): seq<Route> {
    if !act.DropRoute? then ReplaceIn(rts, act.route)
    else if removals then DeleteIn(rts, act.route)
    else rts
  }

  function RoutesDone(rts: seq<Route>, acts: seq<RouteAction>, removals: bool): seq<Route>
    decreases |acts|
  {
    if |acts| == 0 then rts else RoutesDone(OneDone(rts, acts[0], removals), acts[1..], removals)
  }

  lemma {:induction false} DoneConcat(rts: seq<Route>, a: seq<RouteAction>, b: seq<RouteAction>, removals: bool)
    ensures RoutesDone(rts, a + b, removals) == RoutesDone(RoutesDone(rts, a, removals), b, removals)
    decreases |a|
  {
    if |a| == 0 {
      assert a + b == b;
    } else {
      assert (a + b)[1..] == a[1..] + b;
      DoneConcat(OneDone(rts, a[0], removals), a[1..], b, removals);
    }
  }

  // ---- strays ----

  /** A route the table is to have. */
  predicate Ours(r: Route, exitIdx: nat, mode: TunnelMode) {
    IsFallback(r) || TakesTunnel(r, exitIdx, mode)
  }

  function Strays(rts: seq<Route>, exitIdx: nat, mode: TunnelMode): (out: seq<Route>)
    ensures forall r :: r in out <==> r in rts && !Ours(r, exitIdx, mode)
  {
    if |rts| == 0 then []
    else (if Ours(rts[0], exitIdx, mode) then [] else [rts[0]]) + Strays(rts[1..], exitIdx, mode)
  }

  /** No delete of the list would take the route. */
  predicate Spared(strays: seq<Route>, x: Route) {
    forall d :: d in strays ==> !RouteDeleteMatches(d, x)
  }

  /** The table has no route of the contract twice, and no delete for a stray one would take a route
      of the contract that is there or is put in. */
  predicate Apart(rts: seq<Route>, f: Family, table: nat, exitIdx: nat, mode: TunnelMode) {
    var strays := Strays(rts, exitIdx, mode);
    && CountFallback(rts) <= 1 && (!mode.TunnelNone? ==> CountTunnel(rts, exitIdx) <= 1)
    && (forall x :: x in rts && Ours(x, exitIdx, mode) ==> Spared(strays, x))
    && Spared(strays, FallbackRoute(f, table)) && (exitIdx != 0 ==> Spared(strays, TunnelRoute(f, table, exitIdx)))
  }

  /** One sequence is another with some of its members left out. */
  predicate PartOf<T(==)>(a: seq<T>, b: seq<T>)
    decreases |b|
  {
    |a| == 0 || (|b| > 0 && ((a[0] == b[0] && PartOf(a[1..], b[1..])) || PartOf(a, b[1..])))
  }

  lemma {:induction false} PartOfSelf<T>(a: seq<T>)
    ensures PartOf(a, a)
  {
    if |a| > 0 {
      PartOfSelf(a[1..]);
    }
  }

  lemma {:induction false} PartOfMore<T>(a: seq<T>, b: seq<T>, x: T)
    requires PartOf(a, b)
    ensures PartOf(a, [x] + b) && PartOf([x] + a, [x] + b)
  {
    assert ([x] + b)[1..] == b && ([x] + a)[1..] == a;
  }

  /** A part of a part is a part. */
  lemma {:induction false} PartOfPart<T>(a: seq<T>, b: seq<T>, c: seq<T>)
    requires PartOf(a, b) && PartOf(b, c)
    ensures PartOf(a, c)
    decreases |c|
  {
    if |a| > 0 {
      if b[0] == c[0] && PartOf(b[1..], c[1..]) {
        if a[0] == b[0] && PartOf(a[1..], b[1..]) {
          PartOfPart(a[1..], b[1..], c[1..]);
        } else {
          PartOfPart(a, b[1..], c[1..]);
        }
      } else {
        PartOfPart(a, b, c[1..]);
      }
    }
  }

  lemma StraysCons(x: Route, rest: seq<Route>, exitIdx: nat, mode: TunnelMode)
    ensures Strays([x] + rest, exitIdx, mode) == (if Ours(x, exitIdx, mode) then [] else [x]) + Strays(rest, exitIdx, mode)
  {
    assert ([x] + rest)[1..] == rest;
  }

  /** The same routes of the contract in two tables. */
  ghost predicate SameOurs(a: seq<Route>, b: seq<Route>, exitIdx: nat, mode: TunnelMode) {
    && CountFallback(a) == CountFallback(b) && (!mode.TunnelNone? ==> CountTunnel(a, exitIdx) == CountTunnel(b, exitIdx))
    && forall x :: Ours(x, exitIdx, mode) ==> (x in a <==> x in b)
  }

  /** A delete that spares the contract's routes takes none of them. */
  lemma {:induction false} DeleteSpares(rts: seq<Route>, d: Route, exitIdx: nat, mode: TunnelMode)
    requires forall x :: x in rts && Ours(x, exitIdx, mode) ==> !RouteDeleteMatches(d, x)
    ensures SameOurs(rts, DeleteIn(rts, d), exitIdx, mode)
  {
    hide IsFallback, IsTunnelRoute, RouteDeleteMatches;
    if |rts| > 0 {
      var x, rest := rts[0], rts[1..];
      assert rts == [x] + rest && x in rts;
      if RouteDeleteMatches(d, x) {
        NotTwice(x, exitIdx, mode);
      } else {
        DeleteSpares(rest, d, exitIdx, mode);
        var out := [x] + DeleteIn(rest, d);
        assert out[0] == x && out[1..] == DeleteIn(rest, d);
      }
    }
  }

  lemma NoStrays(exitIdx: nat, mode: TunnelMode)
    ensures Strays([], exitIdx, mode) == []
  {
  }

  /** It takes the first stray it matches. */
  lemma {:induction false} DeleteTakesStray(rts: seq<Route>, d: Route, exitIdx: nat, mode: TunnelMode)
    requires forall x :: x in rts && Ours(x, exitIdx, mode) ==> !RouteDeleteMatches(d, x)
    ensures PartOf(Strays(DeleteIn(rts, d), exitIdx, mode), Strays(rts, exitIdx, mode))
    ensures var was := Strays(rts, exitIdx, mode);
            |was| > 0 && was[0] == d ==> Strays(DeleteIn(rts, d), exitIdx, mode) == was[1..]
  {
    hide Ours, RouteDeleteMatches, Strays, PartOf;
    if |rts| == 0 {
      NoStrays(exitIdx, mode);
      PartOfSelf(Strays(rts, exitIdx, mode));
    } else {
      var x, rest := rts[0], rts[1..];
      assert rts == [x] + rest && x in rts;
      StraysCons(x, rest, exitIdx, mode);
      var left := Strays(rest, exitIdx, mode);
      if RouteDeleteMatches(d, x) {
        PartOfSelf(left);
        PartOfMore(left, left, x);
      } else {
        DeleteTakesStray(rest, d, exitIdx, mode);
        StraysCons(x, DeleteIn(rest, d), exitIdx, mode);
        PartOfMore(Strays(DeleteIn(rest, d), exitIdx, mode), left, x);
        MatchesItself(d);
        assert Ours(x, exitIdx, mode) ==> [] + left == left && [] + Strays(DeleteIn(rest, d), exitIdx, mode) == Strays(DeleteIn(rest, d), exitIdx, mode);
      }
    }
  }

  lemma NotTwice(x: Route, exitIdx: nat, mode: TunnelMode)
    ensures !Ours(x, exitIdx, mode) ==> !IsFallback(x) && (!mode.TunnelNone? ==> !IsTunnelRoute(x, exitIdx))
  {
  }

  lemma MatchesItself(d: Route)
    ensures RouteDeleteMatches(d, d)
  {
  }

  function Drops(ds: seq<Route>): seq<RouteAction> {
    seq(|ds|, i requires 0 <= i < |ds| => DropRoute(ds[i]))
  }

  /** Deleting every stray leaves the contract's routes as they were, and nothing else. */
  lemma {:induction false} DropsClear(rts: seq<Route>, ds: seq<Route>, exitIdx: nat, mode: TunnelMode)
    requires PartOf(Strays(rts, exitIdx, mode), ds)
    requires forall x :: x in rts && Ours(x, exitIdx, mode) ==> Spared(ds, x)
    ensures var out := RoutesDone(rts, Drops(ds), true);
            SameOurs(rts, out, exitIdx, mode) && OnlyOwn(out, exitIdx, mode)
    decreases |ds|
  {
    hide Ours, RouteDeleteMatches, CountFallback, CountTunnel;
    var was := Strays(rts, exitIdx, mode);
    if |ds| > 0 {
      var next := DeleteIn(rts, ds[0]);
      assert Drops(ds)[1..] == Drops(ds[1..]) && Drops(ds)[0] == DropRoute(ds[0]);
      assert ds[0] in ds;
      DeleteSpares(rts, ds[0], exitIdx, mode);
      DeleteTakesStray(rts, ds[0], exitIdx, mode);
      DropsStep(was, Strays(next, exitIdx, mode), ds);
      DropsClear(next, ds[1..], exitIdx, mode);
    } else {
      assert was == [];
      OursAlone(rts, exitIdx, mode);
    }
  }

  lemma DropsStep(was: seq<Route>, left: seq<Route>, ds: seq<Route>)
    requires |ds| > 0 && PartOf(was, ds) && PartOf(left, was) && (|was| > 0 && was[0] == ds[0] ==> left == was[1..])
    ensures PartOf(left, ds[1..])
  {
    if |was| == 0 || was[0] != ds[0] || !PartOf(was[1..], ds[1..]) {
      PartOfPart(left, was, ds[1..]);
    }
  }

  lemma OursAlone(rts: seq<Route>, exitIdx: nat, mode: TunnelMode)
    requires Strays(rts, exitIdx, mode) == []
    ensures OnlyOwn(rts, exitIdx, mode)
  {
    hide IsFallback, TakesTunnel;
    forall r | r in rts
      ensures Ours(r, exitIdx, mode)
    {
      assert r in Strays(rts, exitIdx, mode) || Ours(r, exitIdx, mode);
    }
  }

  // ---- the routes that are put in ----

  /** The other routes of the contract are not the ones a put takes the place of. */
  predicate TakesNoneOf(rts: seq<Route>, put: Route, exitIdx: nat, mode: TunnelMode) {
    forall x :: x in rts && SameRoute(x, put) ==> !Ours(x, exitIdx, mode)
  }

  lemma {:induction false} PutKeeps(rts: seq<Route>, put: Route, exitIdx: nat, mode: TunnelMode)
    requires Ours(put, exitIdx, mode) && TakesNoneOf(rts, put, exitIdx, mode)
    ensures var out := ReplaceIn(rts, put);
            && CountFallback(out) == CountFallback(rts) + One(IsFallback(put))
            && (!mode.TunnelNone? ==> CountTunnel(out, exitIdx) == CountTunnel(rts, exitIdx) + One(IsTunnelRoute(put, exitIdx)))
            && (forall x :: x in out && x != put ==> x in rts)
  {
    hide IsFallback, IsTunnelRoute, SameRoute;
    if |rts| > 0 {
      var x, rest := rts[0], rts[1..];
      assert x in rts;
      if SameRoute(x, put) {
        NotTwice(x, exitIdx, mode);
        assert ([put] + rest)[1..] == rest;
      } else {
        PutKeeps(rest, put, exitIdx, mode);
        assert ([x] + ReplaceIn(rest, put))[1..] == ReplaceIn(rest, put);
      }
    } else {
      assert [put][1..] == [];
    }
  }

  lemma {:induction false} PutLeaves(rts: seq<Route>, put: Route, exitIdx: nat, mode: TunnelMode)
    requires Ours(put, exitIdx, mode)
    ensures PartOf(Strays(ReplaceIn(rts, put), exitIdx, mode), Strays(rts, exitIdx, mode))
  {
    hide Ours, SameRoute, Strays, PartOf;
    if |rts| > 0 {
      var x, rest := rts[0], rts[1..];
      assert rts == [x] + rest;
      StraysCons(x, rest, exitIdx, mode);
      var left := Strays(rest, exitIdx, mode);
      if SameRoute(x, put) {
        StraysCons(put, rest, exitIdx, mode);
        PartOfSelf(left);
        PartOfMore(left, left, x);
        assert [] + left == left;
      } else {
        PutLeaves(rest, put, exitIdx, mode);
        StraysCons(x, ReplaceIn(rest, put), exitIdx, mode);
        PartOfMore(Strays(ReplaceIn(rest, put), exitIdx, mode), left, x);
        assert [] + left == left && [] + Strays(ReplaceIn(rest, put), exitIdx, mode) == Strays(ReplaceIn(rest, put), exitIdx, mode);
      }
    } else {
      NoStrays(exitIdx, mode);
      StraysCons(put, [], exitIdx, mode);
      assert [put] + [] == [put];
      PartOfSelf<Route>([]);
    }
  }

  lemma DropsCons(before: seq<RouteAction>, ds: seq<Route>)
    ensures |ds| == 0 ==> before + Drops(ds) == before
    ensures |ds| > 0 ==> before + Drops(ds) == (before + [DropRoute(ds[0])]) + Drops(ds[1..])
  {
  }

  /** The scan of a table with nothing twice drops the strays, in order, and finds the rest. */
  lemma {:induction false} ScanStrays(rts: seq<Route>, exitIdx: nat, mode: TunnelMode, st: ExitScan)
    requires CountFallback(rts) + One(st.fallback) <= 1
    requires !mode.TunnelNone? ==> CountTunnel(rts, exitIdx) + One(st.tunnel) <= 1
    ensures var out := ScanExit(rts, exitIdx, mode, st);
            && out.drops == st.drops + Drops(Strays(rts, exitIdx, mode))
            && One(out.fallback) == CountFallback(rts) + One(st.fallback)
            && (!mode.TunnelNone? ==> One(out.tunnel) == CountTunnel(rts, exitIdx) + One(st.tunnel))
    decreases |rts|
  {
    hide IsFallback, IsTunnelRoute, Strays, Drops;
    if |rts| == 0 {
      NoStrays(exitIdx, mode);
      DropsCons(st.drops, []);
    } else {
      var r, rest := rts[0], rts[1..];
      assert rts == [r] + rest;
      StraysCons(r, rest, exitIdx, mode);
      var left := Strays(rest, exitIdx, mode);
      BothNever(r, exitIdx);
      if IsFallback(r) {
        ScanStrays(rest, exitIdx, mode, st.(fallback := true));
        assert [] + left == left;
      } else if TakesTunnel(r, exitIdx, mode) {
        ScanStrays(rest, exitIdx, mode, st.(tunnel := true));
        assert [] + left == left;
      } else {
        ScanStrays(rest, exitIdx, mode, st.(drops := st.drops + [DropRoute(r)]));
        DropsCons(st.drops, [r] + left);
        assert ([r] + left)[1..] == left;
      }
    }
  }

  lemma BothNever(r: Route, exitIdx: nat)
    ensures !(IsFallback(r) && IsTunnelRoute(r, exitIdx))
  {
  }

  lemma OursArePut(f: Family, table: nat, exitIdx: nat)
    ensures IsFallback(FallbackRoute(f, table)) && (exitIdx != 0 ==> IsTunnelRoute(TunnelRoute(f, table, exitIdx), exitIdx))
  {
  }

  lemma {:induction false} NoneCounted(rts: seq<Route>, exitIdx: nat, x: Route)
    requires x in rts
    ensures CountFallback(rts) == 0 ==> !IsFallback(x)
    ensures CountTunnel(rts, exitIdx) == 0 ==> !IsTunnelRoute(x, exitIdx)
  {
    hide IsFallback, IsTunnelRoute;
    if x != rts[0] {
      NoneCounted(rts[1..], exitIdx, x);
    }
  }

  /** The fallback put in where there is none takes the place of a stray at most. */
  lemma FallbackTakesNone(rts: seq<Route>, f: Family, table: nat, exitIdx: nat, mode: TunnelMode)
    requires CountFallback(rts) == 0
    ensures TakesNoneOf(rts, FallbackRoute(f, table), exitIdx, mode)
  {
    forall x | x in rts && SameRoute(x, FallbackRoute(f, table))
      ensures !Ours(x, exitIdx, mode)
    {
      NoneCounted(rts, exitIdx, x);
    }
  }

  lemma TunnelTakesNone(rts: seq<Route>, f: Family, table: nat, exitIdx: nat, mode: TunnelMode)
    requires CountTunnel(rts, exitIdx) == 0
    ensures TakesNoneOf(rts, TunnelRoute(f, table, exitIdx), exitIdx, mode)
  {
    forall x | x in rts && SameRoute(x, TunnelRoute(f, table, exitIdx))
      ensures !Ours(x, exitIdx, mode)
    {
      NoneCounted(rts, exitIdx, x);
    }
  }

  /** What putting in the missing routes leaves: the contract's routes complete, with fewer strays. */
  ghost predicate Complete(rts: seq<Route>, out: seq<Route>, f: Family, table: nat, exitIdx: nat, mode: TunnelMode) {
    && CountFallback(out) == 1
    && (!mode.TunnelNone? ==> CountTunnel(out, exitIdx) <= 1 && (mode.TunnelRequired? && exitIdx != 0 ==> CountTunnel(out, exitIdx) == 1))
    && PartOf(Strays(out, exitIdx, mode), Strays(rts, exitIdx, mode))
    && forall x :: x in out ==> x in rts || x == FallbackRoute(f, table) || (exitIdx != 0 && x == TunnelRoute(f, table, exitIdx))
  }

  function Puts(rts: seq<Route>, f: Family, table: nat, exitIdx: nat, mode: TunnelMode): seq<RouteAction> {
    (if CountFallback(rts) == 1 then [] else [AddFallback(FallbackRoute(f, table))])
    + (if mode.TunnelRequired? && CountTunnel(rts, exitIdx) != 1 && exitIdx != 0 then [AddTunnel(TunnelRoute(f, table, exitIdx))] else [])
  }

  lemma PutsComplete(rts: seq<Route>, f: Family, table: nat, exitIdx: nat, mode: TunnelMode)
    requires CountFallback(rts) <= 1 && (!mode.TunnelNone? ==> CountTunnel(rts, exitIdx) <= 1)
    ensures Complete(rts, RoutesDone(rts, Puts(rts, f, table, exitIdx, mode), true), f, table, exitIdx, mode)
  {
    hide IsFallback, IsTunnelRoute, SameRoute, FallbackRoute, TunnelRoute, PartOf, Strays, ReplaceIn, CountFallback, CountTunnel, TakesNoneOf;
    var back, tunnel := FallbackRoute(f, table), TunnelRoute(f, table, exitIdx);
    OursArePut(f, table, exitIdx);
    BothNever(back, exitIdx);
    BothNever(tunnel, exitIdx);
    var mid := if CountFallback(rts) == 1 then rts else ReplaceIn(rts, back);
    PartOfSelf(Strays(rts, exitIdx, mode));
    if CountFallback(rts) != 1 {
      FallbackTakesNone(rts, f, table, exitIdx, mode);
      PutKeeps(rts, back, exitIdx, mode);
      PutLeaves(rts, back, exitIdx, mode);
    }
    var out := mid;
    if mode.TunnelRequired? && CountTunnel(rts, exitIdx) != 1 && exitIdx != 0 {
      out := ReplaceIn(mid, tunnel);
      TunnelTakesNone(mid, f, table, exitIdx, mode);
      PutKeeps(mid, tunnel, exitIdx, mode);
      PutLeaves(mid, tunnel, exitIdx, mode);
      PartOfPart(Strays(out, exitIdx, mode), Strays(mid, exitIdx, mode), Strays(rts, exitIdx, mode));
    }
    PutsDone(rts, f, table, exitIdx, mode, mid, out);
  }

  lemma PutsDone(rts: seq<Route>, f: Family, table: nat, exitIdx: nat, mode: TunnelMode, mid: seq<Route>, out: seq<Route>)
    requires mid == if CountFallback(rts) == 1 then rts else ReplaceIn(rts, FallbackRoute(f, table))
    requires out == if mode.TunnelRequired? && CountTunnel(rts, exitIdx) != 1 && exitIdx != 0 then ReplaceIn(mid, TunnelRoute(f, table, exitIdx)) else mid
    ensures RoutesDone(rts, Puts(rts, f, table, exitIdx, mode), true) == out
  {
    hide FallbackRoute, TunnelRoute, ReplaceIn, CountFallback, CountTunnel;
    var a: seq<RouteAction> := if CountFallback(rts) == 1 then [] else [AddFallback(FallbackRoute(f, table))];
    var b: seq<RouteAction> := if mode.TunnelRequired? && CountTunnel(rts, exitIdx) != 1 && exitIdx != 0 then [AddTunnel(TunnelRoute(f, table, exitIdx))] else [];
    DoneConcat(rts, a, b, true);
    assert a == [] || a[1..] == [];
    assert b == [] || b[1..] == [];
  }

  /** With every request granted, the table ends exact. */
  lemma TableSettles(rts: seq<Route>, f: Family, table: nat, exitIdx: nat, mode: TunnelMode)
    requires Apart(rts, f, table, exitIdx, mode)
    ensures ExactTable(RoutesDone(rts, ExitTableActions(rts, f, table, exitIdx, mode), true), exitIdx, mode)
  {
    hide IsFallback, IsTunnelRoute, FallbackRoute, TunnelRoute, PartOf, Strays, CountFallback, CountTunnel, RouteDeleteMatches, ScanExit, RoutesDone;
    var strays := Strays(rts, exitIdx, mode);
    ScanStrays(rts, exitIdx, mode, ExitScan(false, false, []));
    var puts := Puts(rts, f, table, exitIdx, mode);
    assert [] + Drops(strays) == Drops(strays);
    assert ExitTableActions(rts, f, table, exitIdx, mode) == puts + Drops(strays);
    DoneConcat(rts, puts, Drops(strays), true);
    PutsComplete(rts, f, table, exitIdx, mode);
    var mid := RoutesDone(rts, puts, true);
    DropsClear(mid, strays, exitIdx, mode);
    var out := RoutesDone(mid, Drops(strays), true);
    if mode.TunnelNone? {
      NoTunnelCounted(out, exitIdx);
    }
  }

  /** A stray the condition excludes: its delete takes the fallback that stands before it. */
  lemma FallbackTaken(table: nat)
    ensures var back := FallbackRoute(V4, table);
            var rts := [back, back.(metric := 0)];
            && !Apart(rts, V4, table, 0, TunnelNone)
            && RoutesDone(rts, ExitTableActions(rts, V4, table, 0, TunnelNone), true) == [back.(metric := 0)]
            && !ExactTable([back.(metric := 0)], 0, TunnelNone)
  {
    var back := FallbackRoute(V4, table);
    var stray := back.(metric := 0);
    var rts := [back, stray];
    assert rts[1..] == [stray] && [stray][1..] == [];
    assert CountFallback([stray]) == 0 && CountFallback(rts) == 1;
    ScanStrays(rts, 0, TunnelNone, ExitScan(false, false, []));
    assert Strays([stray], 0, TunnelNone) == [stray];
    assert Strays(rts, 0, TunnelNone) == [stray];
    assert ExitTableActions(rts, V4, table, 0, TunnelNone) == [DropRoute(stray)];
    assert [DropRoute(stray)][1..] == [];
    assert RouteDeleteMatches(stray, back);
    assert stray in [stray];
  }
}
