/**
PIA's tunnel address and the pair of return-path rules that goes with it: the address
change, and the repair that runs every pass. Both are ordered kernel calls, any of which
may fail, having worked or not.
*/
module Pia {
  import opened Rtnl
  import opened Contract
  import opened Copies

  // ---- a rule as the applier sees it ----

  /** What the applier is shown of a rule. */
  datatype View = View(src: Opt<Addr>, srcLen: int, ipProto: nat, table: nat, unreachable: bool, other: bool)

  function ViewOf(r: Rule): View {
    View(
      if r.src.Some? then Some(r.src.v.addr) else None,
      if r.src.Some? then r.src.v.len else -1,
      if r.ipProto.Some? then r.ipProto.v else 0,
      if r.action == ACT_TO_TABLE then r.table else 0,
      r.action == ACT_UNREACHABLE,
      r.iif != "" || r.oif != "" || r.fwMark.Some? || r.fwMask.Some? || r.dst.Some? || r.invert
      || r.tos != 0 || r.suppressPrefixLen.Some? || r.jump.Some? || |r.unknown| > 0 || r.bad
    )
  }

  /** The rule is exactly the exit's rule 94 or 98 for the address. */
  predicate ViewExact(v: View, p: nat, a: Addr, table: nat) {
    && v.ipProto == 1 && v.src == Some(a)
    && (v.srcLen == -1 || v.srcLen == 32)
    && !v.other
    && if p == RETURN_PATH then v.table == table && !v.unreachable else v.unreachable && v.table == 0
  }

  predicate Exact(c: Config, p: nat, a: Addr, r: Rule) {
    r.priority == p && ViewExact(ViewOf(r), p, a, c.table)
  }

  predicate From(r: Rule, a: Addr) {
    r.src.Some? && r.src.v.addr == a
  }

  predicate Half(p: nat) { p == RETURN_PATH || p == BACKSTOP }

  function Other(p: nat): nat {
    if p == RETURN_PATH then BACKSTOP else RETURN_PATH
  }

  /** The expected rule 94 or 98 of an address. */
  function Want(c: Config, p: nat, a: Addr): Rule {
    RuleOf(c, V4, if p == RETURN_PATH then ReturnPath(a) else Backstop(a))
  }

  lemma WantIsExact(c: Config, p: nat, a: Addr)
    requires Half(p) && a.family.V4? && c.table >= 256
    ensures Exact(c, p, a, Want(c, p, a)) && From(Want(c, p, a), a)
  {
  }

  /** What the applier takes for an exact rule is the contract's, unless it carries one of the
      attributes the view leaves out. */
  lemma ExactIsExpectedIff(c: Config, p: nat, a: Addr, r: Rule)
    requires Half(p) && a.family.V4? && c.table >= 256 && Exact(c, p, a, r)
    ensures Items(r) == Items(Want(c, p, a)) <==>
            && r.extraFlags == 0 && r.l3mdev.None? && r.suppressIfGroup.None?
            && (p == BACKSTOP ==> r.table == 0)
  {
    HostIsMasked(a);
    assert r.src == Some(HostPrefix(a));
    assert (set u | u in r.unknown) == {};
  }

  predicate InPlace(c: Config, k: seq<Rule>, p: nat, a: Addr) {
    exists r :: r in k && Exact(c, p, a, r)
  }

  /** An expected rule goes in exactly unless the kernel takes another rule for it: one that
      differs only by inversion, or by a mark that selects nothing. */
  lemma AddedIff(c: Config, k: seq<Rule>, p: nat, a: Addr)
    requires Half(p) && a.family.V4? && c.table >= 256
    ensures InPlace(c, AddRule(k, Want(c, p, a)), p, a) <==> InPlace(c, k, p, a) || !Duplicate(k, Want(c, p, a))
  {
    WantIsExact(c, p, a);
    InsertMembers(k, Want(c, p, a));
  }

  /** The case left out: an inverted rule 94 of the address stands for it, and the add that
      reports success puts nothing in. */
  lemma InvertedTwin(c: Config, a: Addr)
    requires a.family.V4? && c.table >= 256
    ensures var twin := Want(c, RETURN_PATH, a).(invert := true);
            AddRule([twin], Want(c, RETURN_PATH, a)) == [twin] && !InPlace(c, [twin], RETURN_PATH, a)
  {
    var want := Want(c, RETURN_PATH, a);
    var twin := want.(invert := true);
    assert twin in [twin] && Identity(twin) == Identity(want);
  }

  // ---- the kernel's calls ----

  datatype State = State(rules: seq<Rule>, addrs: seq<Addr>, route: bool)

  function V4Of(addrs: seq<Addr>): (r: seq<Addr>)
    ensures forall a :: a in r <==> a in addrs && a.family.V4?
  {
    if |addrs| == 0 then [] else (if addrs[0].family.V4? then [addrs[0]] else []) + V4Of(addrs[1..])
  }

  function Dropped(addrs: seq<Addr>, a: Addr): (r: seq<Addr>)
    ensures forall x :: x in r <==> x in addrs && x != a
  {
    if |addrs| == 0 then [] else (if addrs[0] == a then [] else [addrs[0]]) + Dropped(addrs[1..], a)
  }

  /** Some rules from an address are gone, at the halves named, and nothing else. */
  ghost predicate Trimmed(was: seq<Rule>, now: seq<Rule>, at: set<nat>, a: Addr) {
    && (forall r :: r in now ==> r in was)
    && (forall r :: r in was && !(From(r, a) && r.priority in at) ==> r in now)
    && (forall q :: (q !in at || forall r :: r in At(was, q) ==> !From(r, a)) ==> At(now, q) == At(was, q))
  }

  /** An interface that loses its last IPv4 address loses the routes through it. */
  function AfterDrop(st: State, a: Addr): State {
    var left := Dropped(st.addrs, a);
    State(st.rules, left, st.route && (a in st.addrs ==> |V4Of(left)| > 0))
  }

  datatype Event = Added(p: nat, a: Addr) | Assigned(a: Addr) | Unassigned(a: Addr) | Routed | Removed(p: nat, a: Addr) | Cleared(p: nat)

  lemma TrimStep(rules: seq<Rule>, i: nat, left: seq<Rule>, at: set<nat>, a: Addr)
    requires SortedByPriority(rules) && i < |rules| && Trimmed(rules[..i], left, at, a) && SortedByPriority(left)
    ensures Trimmed(rules[..i + 1], left + [rules[i]], at, a) && SortedByPriority(left + [rules[i]])
    ensures From(rules[i], a) && rules[i].priority in at ==> Trimmed(rules[..i + 1], left, at, a)
  {
    hide Trimmed, From, SortedByPriority;
    assert rules[..i + 1] == rules[..i] + [rules[i]];
    TrimWithin(rules[..i], left, at, a);
    SortedSnoc(rules, i, left);
    TrimLess(rules[..i], left, at, a, rules[i]);
    if From(rules[i], a) && rules[i].priority in at {
      TrimMore(rules[..i], left, at, a, rules[i]);
    }
  }

  lemma TrimWithin(was: seq<Rule>, now: seq<Rule>, at: set<nat>, a: Addr)
    requires Trimmed(was, now, at, a)
    ensures forall r :: r in now ==> r in was
  {
  }

  /** Any of the address's rules at the halves named may be gone. */
  method Take(rules: seq<Rule>, at: set<nat>, a: Addr) returns (left: seq<Rule>)
    requires SortedByPriority(rules)
    ensures Trimmed(rules, left, at, a) && SortedByPriority(left)
    decreases |rules|
  {
    if |rules| == 0 {
      TrimNone(at, a);
      return [];
    }
    var n := |rules| - 1;
    assert rules[..n + 1] == rules;
    left := Take(rules[..n], at, a);
    TrimStep(rules, n, left, at, a);
    var taken: bool := *;
    if !(taken && From(rules[n], a) && rules[n].priority in at) {
      left := left + [rules[n]];
    }
  }

  class Kernel {
    const c: Config
    /** Deleting an address's rule at one half may take its other half too. */
    const pairs: bool
    var st: State
    /** Every state gone through, and the calls made. */
    ghost var trace: seq<State>
    ghost var calls: seq<Event>

    constructor (c: Config, pairs: bool, st: State)
      requires SortedByPriority(st.rules)
      ensures Valid() && this.c == c && this.pairs == pairs && this.st == st && trace == [] && calls == []
    {
      this.c, this.pairs, this.st, this.trace, this.calls := c, pairs, st, [], [];
    }

    ghost predicate Valid()
      reads this
    {
      SortedByPriority(st.rules)
    }

    twostate predicate Called(e: Event)
      reads this
    {
      trace == old(trace) + [st] && calls == old(calls) + [e]
    }

    method Rules(p: nat) returns (rules: seq<Rule>, err: bool)
      ensures !err ==> rules == At(st.rules, p)
    {
      err := *;
      rules := if err then [] else At(st.rules, p);
    }

    method Addresses() returns (addrs: seq<Addr>, err: bool)
      ensures !err ==> addrs == st.addrs
    {
      err := *;
      addrs := if err then [] else st.addrs;
    }

    method Add(p: nat, a: Addr) returns (err: bool)
      requires Valid()
      modifies this
      ensures Valid() && Called(Added(p, a)) && st.addrs == old(st.addrs) && st.route == old(st.route)
      ensures st.rules == old(st.rules) || st.rules == AddRule(old(st.rules), Want(c, p, a))
      ensures !err ==> st.rules == AddRule(old(st.rules), Want(c, p, a))
    {
      var lost: bool := *;
      err := *;
      if !lost || !err {
        InsertSorted(st.rules, Want(c, p, a));
        st := st.(rules := AddRule(st.rules, Want(c, p, a)));
      }
      trace, calls := trace + [st], calls + [Added(p, a)];
    }

    method Remove(p: nat, a: Addr) returns (err: bool)
      requires Valid() && Half(p)
      modifies this
      ensures Valid() && Called(Removed(p, a)) && st.addrs == old(st.addrs) && st.route == old(st.route)
      ensures Trimmed(old(st.rules), st.rules, if pairs then {RETURN_PATH, BACKSTOP} else {p}, a)
    {
      err := *;
      var left := Take(st.rules, if pairs then {RETURN_PATH, BACKSTOP} else {p}, a);
      st := st.(rules := left);
      trace, calls := trace + [st], calls + [Removed(p, a)];
    }

    /** Deletes the first rule at a half, whichever it is. */
    method Clear(p: nat) returns (err: bool)
      requires Valid()
      modifies this
      ensures Valid() && Called(Cleared(p)) && st.addrs == old(st.addrs) && st.route == old(st.route)
      ensures st.rules == old(st.rules) || st.rules == DeletePriority(old(st.rules), p)
      ensures !err ==> st.rules == DeletePriority(old(st.rules), p)
    {
      var lost: bool := *;
      err := *;
      if !lost || !err {
        WithoutSorted(st.rules, FirstAt(st.rules, p));
        st := st.(rules := DeletePriority(st.rules, p));
      }
      trace, calls := trace + [st], calls + [Cleared(p)];
    }

    method Assign(a: Addr) returns (err: bool)
      requires Valid()
      modifies this
      ensures Valid() && Called(Assigned(a)) && st.rules == old(st.rules) && st.route == old(st.route)
      ensures st.addrs == old(st.addrs) || (a !in old(st.addrs) && st.addrs == old(st.addrs) + [a])
      ensures !err ==> a in st.addrs
    {
      var lost: bool := *;
      err := *;
      if (!lost || !err) && a !in st.addrs {
        st := st.(addrs := st.addrs + [a]);
      }
      trace, calls := trace + [st], calls + [Assigned(a)];
    }

    method Unassign(a: Addr) returns (err: bool)
      requires Valid()
      modifies this
      ensures Valid() && Called(Unassigned(a))
      ensures st == old(st) || st == AfterDrop(old(st), a)
      ensures !err ==> st == AfterDrop(old(st), a)
    {
      var lost: bool := *;
      err := *;
      if !lost || !err {
        st := AfterDrop(st, a);
      }
      trace, calls := trace + [st], calls + [Unassigned(a)];
    }

    method Route() returns (err: bool)
      requires Valid()
      modifies this
      ensures Valid() && Called(Routed) && st.rules == old(st.rules) && st.addrs == old(st.addrs)
      ensures (old(st.route) || !err) ==> st.route
    {
      var lost: bool := *;
      err := *;
      if !lost || !err {
        st := st.(route := true);
      }
      trace, calls := trace + [st], calls + [Routed];
    }
  }

  lemma SortedSnoc(k: seq<Rule>, i: nat, left: seq<Rule>)
    requires SortedByPriority(k) && i < |k| && SortedByPriority(left)
    requires forall x :: x in left ==> x in k[..i]
    ensures SortedByPriority(left + [k[i]])
  {
    forall j | 0 <= j < |left|
      ensures left[j].priority <= k[i].priority
    {
      assert left[j] in k[..i];
    }
  }

  lemma TrimNone(at: set<nat>, a: Addr)
    ensures Trimmed([], [], at, a)
  {
  }

  lemma TrimMore(was: seq<Rule>, now: seq<Rule>, at: set<nat>, a: Addr, r: Rule)
    requires Trimmed(was, now, at, a) && From(r, a) && r.priority in at
    ensures Trimmed(was + [r], now, at, a)
  {
    forall q | q !in at || forall x :: x in At(was + [r], q) ==> !From(x, a)
      ensures At(now, q) == At(was + [r], q)
    {
      AtConcat(was, [r], q);
    }
  }

  lemma TrimLess(was: seq<Rule>, now: seq<Rule>, at: set<nat>, a: Addr, r: Rule)
    requires Trimmed(was, now, at, a)
    ensures Trimmed(was + [r], now + [r], at, a)
  {
    forall q | q !in at || forall x :: x in At(was + [r], q) ==> !From(x, a)
      ensures At(now + [r], q) == At(was + [r], q)
    {
      AtConcat(was, [r], q);
      AtConcat(now, [r], q);
    }
  }

  // ---- the address change ----

  predicate HasFrom(k: seq<Rule>, p: nat, a: Addr) {
    exists r :: r in k && r.priority == p && From(r, a)
  }

  predicate PairFrom(k: seq<Rule>, a: Addr) {
    HasFrom(k, RETURN_PATH, a) && HasFrom(k, BACKSTOP, a)
  }

  /** Every IPv4 address on the tunnel has a rule at both halves. */
  predicate Covered(st: State) {
    forall a :: a in st.addrs && a.family.V4? ==> PairFrom(st.rules, a)
  }

  /** A change under way: the rules it started from, the new address, and whether the tunnel had
      its route. */
  datatype Change = Change(c: Config, start: seq<Rule>, next: Addr, routed: bool)

  /** The new address gets its exact rule at a half if and only if it had it, or no rule from it
      was there at all: where one was, nothing is added. */
  predicate Fits(w: Change, p: nat, a: Addr) {
    InPlace(w.c, w.start, p, a) || (a == w.next && !HasFrom(w.start, p, a))
  }

  /** Every IPv4 address on the tunnel has its exact rule at a half if and only if it fits. */
  ghost predicate Sharp(w: Change, st: State) {
    forall a, p :: a in st.addrs && a.family.V4? && Half(p) ==> (InPlace(w.c, st.rules, p, a) <==> Fits(w, p, a))
  }

  ghost predicate Guarded(w: Change, st: State) {
    Covered(st) && (w.c.table >= 256 ==> Sharp(w, st)) && (w.routed ==> st.route)
  }

  /** All states gone through since are covered, sharply, with the tunnel's route if it was there. */
  ghost predicate Safe(w: Change, was: seq<State>, now: seq<State>) {
    was <= now && forall i :: |was| <= i < |now| ==> Guarded(w, now[i])
  }

  /** Every removal at 94 comes before any removal at 98. */
  ghost predicate FrontFirst(calls: seq<Event>) {
    forall i, j :: 0 <= i < j < |calls| && calls[i].Removed? && calls[j].Removed? && calls[i].p == BACKSTOP ==>
      calls[j].p == BACKSTOP
  }

  /** The removals at one half: of every old source but the new address. */
  function Removals(p: nat, sources: seq<Addr>, next: Addr): (calls: seq<Event>)
    ensures forall a :: Removed(p, a) in calls <==> a in sources && a != next
    ensures forall e :: e in calls ==> e.Removed? && e.p == p
  {
    if |sources| == 0 then []
    else (if sources[0] == next then [] else [Removed(p, sources[0])]) + Removals(p, sources[1..], next)
  }

  function Addition(start: seq<Rule>, p: nat, next: Addr): seq<Event> {
    if next in SourcesOf(At(start, p)) then [] else [Added(p, next)]
  }

  function Swapping(was: Opt<Addr>, next: Addr): seq<Event> {
    [Assigned(next)] + ((if was.Some? && was.v != next then [Unassigned(was.v)] else []) + [Routed])
  }

  function Adding(start: seq<Rule>, next: Addr): seq<Event> {
    Addition(start, RETURN_PATH, next) + Addition(start, BACKSTOP, next)
  }

  function Removing(start: seq<Rule>, next: Addr): seq<Event> {
    Removals(RETURN_PATH, SourcesOf(At(start, RETURN_PATH)), next) + Removals(BACKSTOP, SourcesOf(At(start, BACKSTOP)), next)
  }

  /** The calls of a change that goes through. */
  function Script(start: seq<Rule>, was: Opt<Addr>, next: Addr): seq<Event> {
    Adding(start, next) + (Swapping(was, next) + Removing(start, next))
  }

  function SourcesOf(rules: seq<Rule>): seq<Addr> {
    if |rules| == 0 then []
    else (if rules[0].src.Some? then [rules[0].src.v.addr] else []) + SourcesOf(rules[1..])
  }

  method Sources(k: Kernel, p: nat) returns (sources: seq<Addr>, err: bool)
    ensures !err ==> sources == SourcesOf(At(k.st.rules, p)) && forall a :: a in sources <==> HasFrom(k.st.rules, p, a)
  {
    hide HasFrom, From, SourcesOf;
    var rules;
    rules, err := k.Rules(p);
    sources := [];
    if err {
      return;
    }
    assert rules[0..] == rules && [] + SourcesOf(rules) == SourcesOf(rules);
    for i := 0 to |rules|
      invariant sources + SourcesOf(rules[i..]) == SourcesOf(rules)
    {
      SourcesStep(rules, i, sources);
      if rules[i].src.Some? {
        sources := sources + [rules[i].src.v.addr];
      }
    }
    SourcesEnd(k.st.rules, p, sources, rules);
  }

  /** Past the last rule the list is whole. */
  lemma SourcesEnd(k: seq<Rule>, p: nat, sources: seq<Addr>, rules: seq<Rule>)
    requires rules == At(k, p) && sources + SourcesOf(rules[|rules|..]) == SourcesOf(rules)
    ensures sources == SourcesOf(rules) && forall a :: a in sources <==> HasFrom(k, p, a)
  {
    hide HasFrom, At;
    assert sources + [] == sources;
    forall a
      ensures a in sources <==> HasFrom(k, p, a)
    {
      ListedIff(k, p, a);
    }
  }

  lemma SourcesStep(rules: seq<Rule>, i: nat, done: seq<Addr>)
    requires i < |rules|
    ensures done + SourcesOf(rules[i..]) ==
            (if rules[i].src.Some? then done + [rules[i].src.v.addr] else done) + SourcesOf(rules[i + 1..])
  {
    assert rules[i..][1..] == rules[i + 1..];
    var rest := SourcesOf(rules[i + 1..]);
    assert [] + rest == rest;
    if rules[i].src.Some? {
      assert done + ([rules[i].src.v.addr] + rest) == done + [rules[i].src.v.addr] + rest;
    }
  }

  lemma {:induction false} SourcesMembers(rules: seq<Rule>, a: Addr)
    ensures a in SourcesOf(rules) <==> exists x :: x in rules && From(x, a)
  {
    if |rules| > 0 {
      SourcesMembers(rules[1..], a);
      assert rules == [rules[0]] + rules[1..];
      if a in SourcesOf(rules[1..]) {
        var x :| x in rules[1..] && From(x, a);
        assert x in rules;
      } else if From(rules[0], a) {
        assert rules[0] in rules;
      }
    }
  }

  lemma ListedIff(k: seq<Rule>, p: nat, a: Addr)
    ensures a in SourcesOf(At(k, p)) <==> HasFrom(k, p, a)
  {
    SourcesMembers(At(k, p), a);
    forall r | r in k && r.priority == p
      ensures r in At(k, p)
    {
      AtMembers(k, r);
    }
  }

  // ---- what a call spares ----

  /** Only rules of the two halves from other addresses may be gone. */
  ghost predicate Spares(was: seq<Rule>, now: seq<Rule>, next: Addr) {
    forall r :: r in was && (!Half(r.priority) || r.src.None? || From(r, next)) ==> r in now
  }

  lemma AddSpares(k: seq<Rule>, want: Rule, next: Addr)
    ensures Spares(k, AddRule(k, want), next) && forall r :: r in k ==> r in AddRule(k, want)
  {
    InsertMembers(k, want);
  }

  lemma TrimSpares(was: seq<Rule>, now: seq<Rule>, at: set<nat>, a: Addr, next: Addr)
    requires Trimmed(was, now, at, a) && a != next && at <= {RETURN_PATH, BACKSTOP}
    ensures Spares(was, now, next)
  {
  }

  lemma SparesPair(was: seq<Rule>, now: seq<Rule>, next: Addr)
    requires Spares(was, now, next)
    ensures PairFrom(was, next) ==> PairFrom(now, next)
  {
    if PairFrom(was, next) {
      var r :| r in was && r.priority == RETURN_PATH && From(r, next);
      var b :| b in was && b.priority == BACKSTOP && From(b, next);
      assert r in now && b in now;
    }
  }

  lemma SparesMore(a: seq<Rule>, b: seq<Rule>, c: seq<Rule>, next: Addr)
    requires Spares(a, b, next) && Spares(b, c, next)
    ensures Spares(a, c, next)
  {
  }

  lemma GrownCovered(st: State, rules: seq<Rule>)
    requires Covered(st) && forall r :: r in st.rules ==> r in rules
    ensures Covered(st.(rules := rules))
  {
    forall a, p | HasFrom(st.rules, p, a)
      ensures HasFrom(rules, p, a)
    {
      var r :| r in st.rules && r.priority == p && From(r, a);
      assert r in rules;
    }
  }

  lemma SafeMore(w: Change, was: seq<State>, now: seq<State>, st: State)
    requires Safe(w, was, now) && Guarded(w, st)
    ensures Safe(w, was, now + [st])
  {
    hide Guarded;
    forall i | |was| <= i < |now + [st]|
      ensures Guarded(w, (now + [st])[i])
    {
      if i < |now| {
        assert (now + [st])[i] == now[i];
      }
    }
  }

  predicate OnlyNext(addrs: seq<Addr>, next: Addr) {
    forall a :: a in addrs && a.family.V4? ==> a == next
  }

  /** The new address has its exact rule at each half if and only if it fits there. */
  ghost predicate NextSharp(w: Change, k: seq<Rule>) {
    forall p :: Half(p) ==> (InPlace(w.c, k, p, w.next) <==> Fits(w, p, w.next))
  }

  lemma OnlyNextGuarded(w: Change, st: State)
    requires OnlyNext(st.addrs, w.next) && PairFrom(st.rules, w.next) && (w.routed ==> st.route)
    requires w.c.table >= 256 ==> NextSharp(w, st.rules)
    ensures Guarded(w, st)
  {
    hide InPlace, Fits, HasFrom;
  }

  lemma TrimSharp(w: Change, was: seq<Rule>, now: seq<Rule>, at: set<nat>, a: Addr)
    requires Trimmed(was, now, at, a) && a != w.next && NextSharp(w, was)
    ensures NextSharp(w, now)
  {
    hide ViewExact, Fits;
    forall p | Half(p)
      ensures InPlace(w.c, now, p, w.next) <==> InPlace(w.c, was, p, w.next)
    {
      forall r | r in was && Exact(w.c, p, w.next, r)
        ensures r in now
      {
        ExactFrom(w.c, p, w.next, r);
      }
    }
  }

  lemma ExactFrom(c: Config, p: nat, a: Addr, r: Rule)
    requires Exact(c, p, a, r)
    ensures From(r, a)
  {
  }

  lemma RemovalsStep(p: nat, sources: seq<Addr>, i: nat, next: Addr, done: seq<Event>)
    requires i < |sources|
    ensures done + Removals(p, sources[i..], next) ==
            (if sources[i] == next then done else done + [Removed(p, sources[i])]) + Removals(p, sources[i + 1..], next)
  {
    var rest := Removals(p, sources[i + 1..], next);
    assert sources[i..][1..] == sources[i + 1..];
    assert [] + rest == rest;
    assert done + ([Removed(p, sources[i])] + rest) == (done + [Removed(p, sources[i])]) + rest;
  }

  /** Takes the old sources' rules out at one half. */
  method RemoveSources(k: Kernel, p: nat, sources: seq<Addr>, ghost was: seq<State>, ghost w: Change, next: Addr)
    returns (err: bool)
    requires k.Valid() && Half(p) && Safe(w, was, k.trace) && (w.routed ==> k.st.route) && w.next == next
    requires PairFrom(k.st.rules, next) && OnlyNext(k.st.addrs, next) && (w.c.table >= 256 ==> NextSharp(w, k.st.rules))
    modifies k
    ensures k.Valid() && Safe(w, was, k.trace) && k.st.addrs == old(k.st.addrs) && k.st.route == old(k.st.route)
    ensures PairFrom(k.st.rules, next) && Spares(old(k.st.rules), k.st.rules, next)
    ensures w.c.table >= 256 ==> NextSharp(w, k.st.rules)
    ensures old(k.calls) <= k.calls <= old(k.calls) + Removals(p, sources, next)
    ensures !err ==> k.calls == old(k.calls) + Removals(p, sources, next)
  {
    hide Safe, PairFrom, OnlyNext, Spares, Trimmed, Removals, Guarded, NextSharp;
    SparesAll(k.st.rules, next);
    err := false;
    assert sources[0..] == sources;
    for i := 0 to |sources|
      invariant k.Valid() && Safe(w, was, k.trace) && k.st.addrs == old(k.st.addrs) && k.st.route == old(k.st.route)
      invariant PairFrom(k.st.rules, next) && Spares(old(k.st.rules), k.st.rules, next)
      invariant w.c.table >= 256 ==> NextSharp(w, k.st.rules)
      invariant old(k.calls) <= k.calls
      invariant k.calls + Removals(p, sources[i..], next) == old(k.calls) + Removals(p, sources, next)
    {
      RemovalsStep(p, sources, i, next, k.calls);
      if sources[i] != next {
        ghost var rules, trace := k.st.rules, k.trace;
        err := k.Remove(p, sources[i]);
        ghost var at := if k.pairs then {RETURN_PATH, BACKSTOP} else {p};
        TrimSpares(rules, k.st.rules, at, sources[i], next);
        SparesPair(rules, k.st.rules, next);
        SparesMore(old(k.st.rules), rules, k.st.rules, next);
        if w.c.table >= 256 {
          TrimSharp(w, rules, k.st.rules, at, sources[i]);
        }
        OnlyNextGuarded(w, k.st);
        SafeMore(w, was, trace, k.st);
        if err {
          return;
        }
      }
    }
    NoneLeft(p, sources, next);
    assert k.calls + [] == k.calls;
  }

  lemma NoneLeft(p: nat, sources: seq<Addr>, next: Addr)
    ensures Removals(p, sources[|sources|..], next) == []
  {
  }

  lemma SparesAll(rules: seq<Rule>, next: Addr)
    ensures Spares(rules, rules, next)
  {
  }

  /** With no rule from the address at the half, its rule goes in, and is exact for no other. */
  lemma AddExact(c: Config, k: seq<Rule>, p: nat, next: Addr, q: nat, a: Addr)
    requires Half(p) && Half(q) && next.family.V4? && c.table >= 256 && !HasFrom(k, p, next)
    ensures InPlace(c, AddRule(k, Want(c, p, next)), q, a) <==> InPlace(c, k, q, a) || (q == p && a == next)
  {
    var want := Want(c, p, next);
    WantIsExact(c, p, next);
    NoTwin(c, k, p, next);
    InsertMembers(k, want);
    assert Exact(c, q, a, want) <==> q == p && a == next;
    hide Exact, Want, ViewOf;
  }

  lemma NoTwin(c: Config, k: seq<Rule>, p: nat, a: Addr)
    requires Half(p) && a.family.V4? && !HasFrom(k, p, a)
    ensures !Duplicate(k, Want(c, p, a))
  {
    HostIsMasked(a);
    forall x | x in k && Identity(x) == Identity(Want(c, p, a))
      ensures false
    {
      FloorOne(x.src.v.addr.n);
    }
  }

  lemma GrownGuarded(w: Change, st: State, p: nat)
    requires Guarded(w, st) && Half(p) && w.next.family.V4? && !HasFrom(st.rules, p, w.next)
    ensures Guarded(w, st.(rules := AddRule(st.rules, Want(w.c, p, w.next))))
  {
    var rules := AddRule(st.rules, Want(w.c, p, w.next));
    AddSpares(st.rules, Want(w.c, p, w.next), w.next);
    GrownCovered(st, rules);
    assert w.next !in st.addrs;
    hide AddRule, Want, InPlace, Fits, Covered;
    if w.c.table >= 256 {
      forall a, q | a in st.addrs && a.family.V4? && Half(q)
        ensures InPlace(w.c, rules, q, a) <==> Fits(w, q, a)
      {
        AddExact(w.c, st.rules, p, w.next, q, a);
      }
    }
  }

  lemma AddKeepsOther(c: Config, k: seq<Rule>, p: nat, next: Addr)
    requires Half(p)
    ensures HasFrom(AddRule(k, Want(c, p, next)), Other(p), next) <==> HasFrom(k, Other(p), next)
  {
    InsertMembers(k, Want(c, p, next));
  }

  /** Puts one half of the new pair in, unless its source is there. */
  method AddHalf(k: Kernel, p: nat, have: bool, ghost was: seq<State>, ghost w: Change, next: Addr) returns (err: bool)
    requires k.Valid() && Guarded(w, k.st) && Safe(w, was, k.trace) && Half(p) && next.family.V4?
    requires w.next == next && w.c == k.c && (have <==> HasFrom(k.st.rules, p, next))
    modifies k
    ensures k.Valid() && Guarded(w, k.st) && Safe(w, was, k.trace)
    ensures k.st.addrs == old(k.st.addrs) && k.st.route == old(k.st.route)
    ensures Spares(old(k.st.rules), k.st.rules, next)
    ensures k.calls == old(k.calls) + if have then [] else [Added(p, next)]
    ensures HasFrom(k.st.rules, Other(p), next) <==> HasFrom(old(k.st.rules), Other(p), next)
    ensures w.c.table >= 256 ==> (InPlace(k.c, k.st.rules, Other(p), next) <==> InPlace(k.c, old(k.st.rules), Other(p), next))
    ensures !err && w.c.table >= 256 ==> (InPlace(k.c, k.st.rules, p, next) <==> InPlace(k.c, old(k.st.rules), p, next) || !have)
  {
    hide Safe, Spares, Guarded, Want, HasFrom, InPlace, AddRule;
    SparesAll(k.st.rules, next);
    err := false;
    if !have {
      AddSpares(k.st.rules, Want(k.c, p, next), next);
      GrownGuarded(w, k.st, p);
      AddKeepsOther(k.c, k.st.rules, p, next);
      if w.c.table >= 256 {
        AddExact(k.c, k.st.rules, p, next, p, next);
        AddExact(k.c, k.st.rules, p, next, Other(p), next);
      }
      err := k.Add(p, next);
      assert k.st == old(k.st).(rules := k.st.rules);
      assert k.st.rules == old(k.st.rules) ==> k.st == old(k.st);
      SafeMore(w, was, old(k.trace), k.st);
    }
  }

  lemma SafeStart(w: Change, trace: seq<State>)
    ensures Safe(w, trace, trace)
  {
  }

  lemma StartsGuarded(w: Change, st: State)
    requires w.start == st.rules && w.routed == st.route && Covered(st)
    ensures Guarded(w, st)
  {
    hide InPlace, HasFrom;
  }

  /** An address taken off, another left: the route stays. */
  lemma DropKeepsRoute(st: State, a: Addr, next: Addr)
    requires next in st.addrs && next.family.V4? && a != next
    ensures AfterDrop(st, a).route == st.route && next in AfterDrop(st, a).addrs
    ensures AfterDrop(st, a).rules == st.rules
    ensures forall x :: x in AfterDrop(st, a).addrs ==> x in st.addrs && x != a
  {
    assert next in V4Of(Dropped(st.addrs, a));
  }

  lemma FewerGuarded(w: Change, st: State, addrs: seq<Addr>, route: bool)
    requires Guarded(w, st) && (forall a :: a in addrs ==> a in st.addrs) && (w.routed ==> route)
    ensures Guarded(w, State(st.rules, addrs, route))
  {
    hide InPlace, Fits, PairFrom;
  }

  lemma MoreGuarded(w: Change, st: State, addrs: seq<Addr>)
    requires Guarded(w, st) && PairFrom(st.rules, w.next) && forall a :: a in addrs ==> a in st.addrs || a == w.next
    requires w.c.table >= 256 ==> NextSharp(w, st.rules)
    ensures Guarded(w, st.(addrs := addrs))
  {
    hide InPlace, Fits, PairFrom;
  }

  /** Moves the tunnel from the old address to the new one, whose pair is in. */
  method SwapAddress(k: Kernel, was: Opt<Addr>, next: Addr, ghost before: seq<State>, ghost w: Change) returns (err: bool)
    requires k.Valid() && next.family.V4? && Guarded(w, k.st) && Safe(w, before, k.trace) && w.next == next
    requires PairFrom(k.st.rules, next) && (w.c.table >= 256 ==> NextSharp(w, k.st.rules))
    requires forall a :: a in k.st.addrs && a.family.V4? ==> a == next || was == Some(a)
    modifies k
    ensures k.Valid() && Guarded(w, k.st) && Safe(w, before, k.trace)
    ensures k.st.rules == old(k.st.rules)
    ensures !err ==> k.st.route && next in k.st.addrs && OnlyNext(k.st.addrs, next)
    ensures old(k.calls) <= k.calls <= old(k.calls) + Swapping(was, next)
    ensures !err ==> k.calls == old(k.calls) + Swapping(was, next)
  {
    hide Safe, Guarded, PairFrom, AfterDrop, NextSharp;
    err := k.Assign(next);
    MoreGuarded(w, old(k.st), k.st.addrs);
    SafeMore(w, before, old(k.trace), k.st);
    if err {
      return;
    }
    GuardedRoute(w, k.st);
    if was.Some? && was.v != next {
      ghost var st, trace := k.st, k.trace;
      DropKeepsRoute(st, was.v, next);
      FewerGuarded(w, st, AfterDrop(st, was.v).addrs, st.route);
      err := k.Unassign(was.v);
      SafeMore(w, before, trace, k.st);
      if err {
        return;
      }
    }
    ghost var st, trace := k.st, k.trace;
    GuardedRoute(w, st);
    FewerGuarded(w, st, st.addrs, true);
    FewerGuarded(w, st, st.addrs, st.route);
    err := k.Route();
    SafeMore(w, before, trace, k.st);
  }

  lemma GuardedRoute(w: Change, st: State)
    requires Guarded(w, st)
    ensures w.routed ==> st.route
  {
  }

  lemma ScriptInOrder(start: seq<Rule>, was: Opt<Addr>, next: Addr, calls: seq<Event>)
    requires calls <= Script(start, was, next)
    ensures FrontFirst(calls)
  {
    hide Removals, SourcesOf, At;
    var before := Adding(start, next) + Swapping(was, next);
    var front := Removals(RETURN_PATH, SourcesOf(At(start, RETURN_PATH)), next);
    var back := Removals(BACKSTOP, SourcesOf(At(start, BACKSTOP)), next);
    assert forall e :: e in before ==> !e.Removed?;
    assert Script(start, was, next) == before + (front + back);
    ThenInOrder(before, front, back, calls);
  }

  lemma ThenInOrder(before: seq<Event>, front: seq<Event>, back: seq<Event>, calls: seq<Event>)
    requires (forall e :: e in before ==> !e.Removed?) && (forall e :: e in front ==> e.Removed? && e.p == RETURN_PATH)
    requires (forall e :: e in back ==> e.Removed? && e.p == BACKSTOP) && calls <= before + (front + back)
    ensures FrontFirst(calls)
  {
    forall i, j | 0 <= i < j < |calls| && calls[i].Removed? && calls[j].Removed? && calls[i].p == BACKSTOP
      ensures calls[j].p == BACKSTOP
    {
      assert calls[i] == (before + (front + back))[i] && calls[j] == (before + (front + back))[j];
    }
  }

  /** One part of a script done, the next begun. */
  lemma Onward<T>(base: seq<T>, done: seq<T>, part: seq<T>, rest: seq<T>, calls: seq<T>)
    requires base + done <= calls <= (base + done) + part
    ensures base <= calls <= base + (done + (part + rest))
    ensures (base + done) + part == base + (done + part) && (done + part) + rest == done + (part + rest)
  {
    assert (base + done) + part == base + (done + part);
    assert (done + part) + rest == done + (part + rest);
    assert base + (done + (part + rest)) == ((base + done) + part) + rest;
  }

  /** The new half is in, sharply, once both additions are through. */
  lemma NextIn(w: Change, k1: seq<Rule>, k2: seq<Rule>)
    requires w.c.table >= 256
    requires InPlace(w.c, k1, RETURN_PATH, w.next) <==> InPlace(w.c, w.start, RETURN_PATH, w.next) || !HasFrom(w.start, RETURN_PATH, w.next)
    requires InPlace(w.c, k1, BACKSTOP, w.next) <==> InPlace(w.c, w.start, BACKSTOP, w.next)
    requires InPlace(w.c, k2, RETURN_PATH, w.next) <==> InPlace(w.c, k1, RETURN_PATH, w.next)
    requires InPlace(w.c, k2, BACKSTOP, w.next) <==> InPlace(w.c, k1, BACKSTOP, w.next) || !HasFrom(w.start, BACKSTOP, w.next)
    ensures NextSharp(w, k2)
  {
    hide InPlace, HasFrom;
  }

  /** Puts the new pair in and reads it back. */
  method AddPair(k: Kernel, next: Addr, ghost before: seq<State>, ghost w: Change)
    returns (old94: seq<Addr>, old98: seq<Addr>, err: bool)
    requires k.Valid() && Guarded(w, k.st) && Safe(w, before, k.trace) && next.family.V4?
    requires w.next == next && w.c == k.c && w.start == k.st.rules
    modifies k
    ensures k.Valid() && Guarded(w, k.st) && Safe(w, before, k.trace) && k.st.addrs == old(k.st.addrs)
    ensures Spares(old(k.st.rules), k.st.rules, next)
    ensures !err ==> PairFrom(k.st.rules, next) && (w.c.table >= 256 ==> NextSharp(w, k.st.rules))
    ensures !err ==> old94 == SourcesOf(At(w.start, RETURN_PATH)) && old98 == SourcesOf(At(w.start, BACKSTOP))
    ensures old(k.calls) <= k.calls <= old(k.calls) + Adding(w.start, next)
    ensures !err ==> k.calls == old(k.calls) + Adding(w.start, next)
  {
    hide Safe, Guarded, PairFrom, HasFrom, Spares, SourcesOf, At, NextSharp, InPlace;
    SparesAll(k.st.rules, next);
    var now94, now98;
    old94, old98 := [], [];
    old94, err := Sources(k, RETURN_PATH);
    if err { return; }
    old98, err := Sources(k, BACKSTOP);
    if err { return; }
    err := AddHalf(k, RETURN_PATH, next in old94, before, w, next);
    if err { return; }
    ghost var rules := k.st.rules;
    err := AddHalf(k, BACKSTOP, next in old98, before, w, next);
    SparesMore(w.start, rules, k.st.rules, next);
    if err { return; }
    if w.c.table >= 256 {
      NextIn(w, rules, k.st.rules);
    }
    now94, err := Sources(k, RETURN_PATH);
    if err { return; }
    now98, err := Sources(k, BACKSTOP);
    if err { return; }
    err := next !in now94 || next !in now98;
    if !err {
      PairIs(k.st.rules, next);
    }
  }

  /** Takes the old pairs out, their rules at 94 first. */
  method RemovePairs(k: Kernel, old94: seq<Addr>, old98: seq<Addr>, next: Addr, ghost before: seq<State>, ghost w: Change)
    returns (err: bool)
    requires k.Valid() && Safe(w, before, k.trace) && (w.routed ==> k.st.route) && w.next == next
    requires PairFrom(k.st.rules, next) && OnlyNext(k.st.addrs, next) && (w.c.table >= 256 ==> NextSharp(w, k.st.rules))
    modifies k
    ensures k.Valid() && Guarded(w, k.st) && Safe(w, before, k.trace)
    ensures k.st.addrs == old(k.st.addrs) && k.st.route == old(k.st.route) && Spares(old(k.st.rules), k.st.rules, next)
    ensures old(k.calls) <= k.calls <= old(k.calls) + (Removals(RETURN_PATH, old94, next) + Removals(BACKSTOP, old98, next))
    ensures !err ==> k.calls == old(k.calls) + (Removals(RETURN_PATH, old94, next) + Removals(BACKSTOP, old98, next))
  {
    hide Safe, Guarded, PairFrom, OnlyNext, Spares, Removals, NextSharp;
    err := RemoveSources(k, RETURN_PATH, old94, before, w, next);
    OnlyNextGuarded(w, k.st);
    if err { return; }
    ghost var rules := k.st.rules;
    err := RemoveSources(k, BACKSTOP, old98, before, w, next);
    SparesMore(old(k.st.rules), rules, k.st.rules, next);
    OnlyNextGuarded(w, k.st);
  }

  /** The address change: the new pair goes in and is confirmed, the new address goes on and the
      old one off, then the old pairs go. Started with at most the old address on the tunnel
      besides the new one, every address is covered after every call, whichever call fails, and
      the tunnel never loses its route. Each address on the tunnel has its exact rule at a half
      exactly if it fits. The calls are the script's, as far as they got. */
  method ChangeAddress(k: Kernel, was: Opt<Addr>, next: Addr) returns (err: bool)
    requires k.Valid() && next.family.V4? && Covered(k.st)
    requires forall a :: a in k.st.addrs && a.family.V4? ==> a == next || was == Some(a)
    modifies k
    ensures k.Valid() && Covered(k.st) && Safe(Change(k.c, old(k.st.rules), next, old(k.st.route)), old(k.trace), k.trace)
    ensures !err ==> k.st.route && next in k.st.addrs && OnlyNext(k.st.addrs, next)
    ensures old(k.calls) <= k.calls <= old(k.calls) + Script(old(k.st.rules), was, next)
    ensures !err ==> k.calls == old(k.calls) + Script(old(k.st.rules), was, next)
    ensures FrontFirst(k.calls[|old(k.calls)|..])
    ensures Spares(old(k.st.rules), k.st.rules, next)
  {
    hide Safe, Guarded, PairFrom, OnlyNext, Spares, FrontFirst, Removals, SourcesOf, At, NextSharp, Swapping, Adding;
    ghost var w, before, start, made := Change(k.c, k.st.rules, next, k.st.route), k.trace, k.st.rules, k.calls;
    ghost var add, swap, rem := Adding(start, next), Swapping(was, next), Removing(start, next);
    SafeStart(w, before);
    StartsGuarded(w, k.st);
    var old94, old98;
    old94, old98, err := AddPair(k, next, before, w);
    GuardedCovered(w, k.st);
    assert made + [] == made && [] + add == add && [] + (add + (swap + rem)) == add + (swap + rem);
    Onward(made, [], add, swap + rem, k.calls);
    ScriptPrefix(made, start, was, next, k.calls);
    if err { return; }
    err := SwapAddress(k, was, next, before, w);
    GuardedCovered(w, k.st);
    Onward(made, add, swap, rem, k.calls);
    ScriptPrefix(made, start, was, next, k.calls);
    if err { return; }
    ghost var rules := k.st.rules;
    GuardedRoute(w, k.st);
    err := RemovePairs(k, old94, old98, next, before, w);
    SparesMore(start, rules, k.st.rules, next);
    GuardedCovered(w, k.st);
    assert rem + [] == rem;
    Onward(made, add + swap, rem, [], k.calls);
    ScriptPrefix(made, start, was, next, k.calls);
  }

  lemma GuardedCovered(w: Change, st: State)
    requires Guarded(w, st)
    ensures Covered(st)
  {
  }

  lemma ScriptPrefix(made: seq<Event>, start: seq<Rule>, was: Opt<Addr>, next: Addr, calls: seq<Event>)
    requires made <= calls <= made + Script(start, was, next)
    ensures FrontFirst(calls[|made|..])
  {
    hide Script, FrontFirst;
    assert (made + Script(start, was, next))[|made|..] == Script(start, was, next);
    assert calls[|made|..] <= Script(start, was, next);
    ScriptInOrder(start, was, next, calls[|made|..]);
  }

  /** What the finished change asked for: both old halves of every other source. */
  lemma ScriptRemovesAll(start: seq<Rule>, was: Opt<Addr>, next: Addr, a: Addr, p: nat)
    requires Half(p)
    ensures Removed(p, a) in Script(start, was, next) <==> HasFrom(start, p, a) && a != next
  {
    hide HasFrom, SourcesOf, At, Removals;
    ListedIff(start, p, a);
    var add, swap, rem := Adding(start, next), Swapping(was, next), Removing(start, next);
    assert Removed(p, a) !in add && Removed(p, a) !in swap;
    assert Removed(p, a) in Script(start, was, next) <==> Removed(p, a) in rem;
  }

  lemma PairIs(k: seq<Rule>, a: Addr)
    requires HasFrom(k, RETURN_PATH, a) && HasFrom(k, BACKSTOP, a)
    ensures PairFrom(k, a)
  {
  }

  // ---- the repair ----

  /** The address kept: the recorded one if it is on the tunnel, else the first. */
  function Kept(addresses: seq<Addr>, recorded: Opt<Addr>): (keep: Opt<Addr>)
    ensures keep.Some? ==> keep.v in addresses
    ensures keep.None? ==> addresses == []
  {
    if recorded.Some? && recorded.v in addresses then recorded
    else if |addresses| > 0 then Some(addresses[0]) else None
  }

  method FindKept(addresses: seq<Addr>, recorded: Opt<Addr>) returns (keep: Opt<Addr>)
    ensures keep == Kept(addresses, recorded)
    ensures recorded.Some? && recorded.v in addresses ==> keep == recorded
    ensures !(recorded.Some? && recorded.v in addresses) && addresses != [] ==> keep == Some(addresses[0])
  {
    keep := None;
    for i := 0 to |addresses|
      invariant keep == if recorded.Some? && recorded.v in addresses[..i] then recorded else None
    {
      if Some(addresses[i]) == recorded {
        keep := Some(addresses[i]);
      }
    }
    assert addresses[..|addresses|] == addresses;
    if keep.None? && |addresses| > 0 {
      keep := Some(addresses[0]);
    }
  }

  method OnlyV4(addrs: seq<Addr>) returns (out: seq<Addr>)
    ensures out == V4Of(addrs)
  {
    out := [];
    for i := 0 to |addrs|
      invariant out + V4Of(addrs[i..]) == V4Of(addrs)
    {
      assert addrs[i..][1..] == addrs[i + 1..];
      if addrs[i].family.V4? {
        out := out + [addrs[i]];
      }
    }
  }

  /** A half is as it should be: the kept address's exact rule and no other, or none at all. */
  predicate Settled(c: Config, k: seq<Rule>, p: nat, keep: Opt<Addr>) {
    match keep
    case None => At(k, p) == []
    case Some(a) => |At(k, p)| == 1 && Exact(c, p, a, At(k, p)[0])
  }

  /** All rules at a half, if any, are the kept address's. */
  predicate OnlyKept(k: seq<Rule>, p: nat, keep: Opt<Addr>) {
    forall r :: r in At(k, p) ==> keep.Some? && From(r, keep.v)
  }

  /** The kept address has an exact rule at a half. */
  predicate Holds(c: Config, st: State, p: nat, keep: Opt<Addr>) {
    keep.Some? && InPlace(c, st.rules, p, keep.v)
  }

  /** Since then the addresses and the route are the same, and a half that held still holds. */
  ghost predicate Steady(c: Config, was: seq<State>, now: seq<State>, st: State, p: nat, keep: Opt<Addr>) {
    && was <= now
    && (forall i :: |was| <= i < |now| ==> now[i].addrs == st.addrs && now[i].route == st.route)
    && (Holds(c, st, p, keep) ==> forall i :: |was| <= i < |now| ==> Holds(c, now[i], p, keep))
  }

  lemma SteadyMore(c: Config, was: seq<State>, now: seq<State>, st: State, p: nat, keep: Opt<Addr>, next: State)
    requires Steady(c, was, now, st, p, keep) && next.addrs == st.addrs && next.route == st.route
    requires Holds(c, st, p, keep) ==> Holds(c, next, p, keep)
    ensures Steady(c, was, now + [next], st, p, keep)
  {
    hide Holds;
    forall i | |was| <= i < |now + [next]|
      ensures (now + [next])[i].addrs == st.addrs && (now + [next])[i].route == st.route
      ensures Holds(c, st, p, keep) ==> Holds(c, (now + [next])[i], p, keep)
    {
      if i < |now| {
        assert (now + [next])[i] == now[i];
      }
    }
  }

  lemma TrimHolds(c: Config, was: State, now: State, at: set<nat>, a: Addr, p: nat, keep: Opt<Addr>)
    requires Trimmed(was.rules, now.rules, at, a) && keep != Some(a)
    ensures Holds(c, was, p, keep) ==> Holds(c, now, p, keep)
    ensures keep.Some? && HasFrom(was.rules, p, keep.v) ==> HasFrom(now.rules, p, keep.v)
    ensures OnlyKept(was.rules, p, keep) ==> At(now.rules, p) == At(was.rules, p)
    ensures !Half(p) && at <= {RETURN_PATH, BACKSTOP} ==> At(now.rules, p) == At(was.rules, p)
  {
    if keep.Some? && InPlace(c, was.rules, p, keep.v) {
      var r :| r in was.rules && Exact(c, p, keep.v, r);
      assert r in now.rules;
    }
    if keep.Some? && HasFrom(was.rules, p, keep.v) {
      var r :| r in was.rules && r.priority == p && From(r, keep.v);
      assert r in now.rules;
    }
  }

  /** Everything at one priority decides whether its half is held. */
  lemma HoldsAt(c: Config, was: State, now: State, p: nat, keep: Opt<Addr>)
    requires At(now.rules, p) == At(was.rules, p)
    ensures Holds(c, was, p, keep) <==> Holds(c, now, p, keep)
  {
    if keep.Some? {
      InPlaceAt(c, was.rules, p, keep.v);
      InPlaceAt(c, now.rules, p, keep.v);
    }
  }

  lemma InPlaceAt(c: Config, k: seq<Rule>, p: nat, a: Addr)
    ensures InPlace(c, k, p, a) <==> exists r :: r in At(k, p) && Exact(c, p, a, r)
  {
    hide ViewOf, ViewExact;
    if InPlace(c, k, p, a) {
      var r :| r in k && Exact(c, p, a, r);
      AtMembers(k, r);
    }
  }

  /** Removes, by source, every rule at a half that is not the kept address's. */
  method RemoveOthers(k: Kernel, p: nat, rules: seq<Rule>, keep: Opt<Addr>) returns (err: bool)
    requires k.Valid() && Half(p)
    modifies k
    ensures k.Valid() && k.st.addrs == old(k.st.addrs) && k.st.route == old(k.st.route)
    ensures Steady(k.c, old(k.trace), k.trace, old(k.st), Other(p), keep)
    ensures Holds(k.c, old(k.st), Other(p), keep) ==> Holds(k.c, k.st, Other(p), keep)
    ensures forall q :: keep.Some? && HasFrom(old(k.st.rules), q, keep.v) ==> HasFrom(k.st.rules, q, keep.v)
    ensures OnlyKept(old(k.st.rules), Other(p), keep) ==> At(k.st.rules, Other(p)) == At(old(k.st.rules), Other(p))
    ensures forall q :: !Half(q) ==> At(k.st.rules, q) == At(old(k.st.rules), q)
  {
    hide Steady, Trimmed, Holds, HasFrom, OnlyKept, At;
    SteadyStart(k.c, k.trace, k.st, Other(p), keep);
    err := false;
    for i := 0 to |rules|
      invariant k.Valid() && k.st.addrs == old(k.st.addrs) && k.st.route == old(k.st.route)
      invariant Steady(k.c, old(k.trace), k.trace, old(k.st), Other(p), keep)
      invariant Holds(k.c, old(k.st), Other(p), keep) ==> Holds(k.c, k.st, Other(p), keep)
      invariant forall q :: keep.Some? && HasFrom(old(k.st.rules), q, keep.v) ==> HasFrom(k.st.rules, q, keep.v)
      invariant OnlyKept(old(k.st.rules), Other(p), keep) ==> At(k.st.rules, Other(p)) == At(old(k.st.rules), Other(p))
      invariant forall q :: !Half(q) ==> At(k.st.rules, q) == At(old(k.st.rules), q)
    {
      var src := rules[i].src;
      if src.Some? && Some(src.v.addr) != keep {
        ghost var st, trace := k.st, k.trace;
        err := k.Remove(p, src.v.addr);
        ghost var at := if k.pairs then {RETURN_PATH, BACKSTOP} else {p};
        forall q
          ensures !Half(q) ==> At(k.st.rules, q) == At(st.rules, q)
          ensures keep.Some? && HasFrom(st.rules, q, keep.v) ==> HasFrom(k.st.rules, q, keep.v)
        {
          TrimHolds(k.c, st, k.st, at, src.v.addr, q, keep);
        }
        TrimHolds(k.c, st, k.st, at, src.v.addr, Other(p), keep);
        OnlyKeptAt(old(k.st.rules), st.rules, Other(p), keep);
        SteadyMore(k.c, old(k.trace), trace, old(k.st), Other(p), keep, k.st);
        if err {
          return;
        }
      }
    }
  }

  lemma OnlyKeptAt(was: seq<Rule>, now: seq<Rule>, p: nat, keep: Opt<Addr>)
    ensures At(now, p) == At(was, p) ==> (OnlyKept(was, p, keep) <==> OnlyKept(now, p, keep))
  {
  }

  lemma SteadyStart(c: Config, trace: seq<State>, st: State, p: nat, keep: Opt<Addr>)
    ensures Steady(c, trace, trace, st, p, keep)
  {
  }

  lemma ClearStep(k: seq<Rule>, p: nat)
    ensures |At(k, p)| > 0 ==> |At(DeletePriority(k, p), p)| == |At(k, p)| - 1
    ensures forall q :: q != p ==> At(DeletePriority(k, p), q) == At(k, q)
  {
    forall q
      ensures q != p ==> At(DeletePriority(k, p), q) == At(k, q)
      ensures q == p && |At(k, p)| > 0 ==> |At(DeletePriority(k, p), p)| == |At(k, p)| - 1
    {
      DeletePriorityAt(k, p, q);
    }
  }

  /** Deletes as many rules at a half as it has. */
  method ClearHalf(k: Kernel, p: nat, n: nat, keep: Opt<Addr>) returns (err: bool)
    requires k.Valid() && Half(p) && n == |At(k.st.rules, p)|
    modifies k
    ensures k.Valid() && k.st.addrs == old(k.st.addrs) && k.st.route == old(k.st.route)
    ensures Steady(k.c, old(k.trace), k.trace, old(k.st), Other(p), keep)
    ensures forall q :: q != p ==> At(k.st.rules, q) == At(old(k.st.rules), q)
    ensures !err ==> At(k.st.rules, p) == []
  {
    hide Steady, Holds, At, DeletePriority;
    SteadyStart(k.c, k.trace, k.st, Other(p), keep);
    err := false;
    for i := 0 to n
      invariant k.Valid() && k.st.addrs == old(k.st.addrs) && k.st.route == old(k.st.route)
      invariant Steady(k.c, old(k.trace), k.trace, old(k.st), Other(p), keep)
      invariant forall q :: q != p ==> At(k.st.rules, q) == At(old(k.st.rules), q)
      invariant |At(k.st.rules, p)| == n - i
    {
      ghost var trace := k.trace;
      ClearStep(k.st.rules, p);
      err := k.Clear(p);
      HoldsAt(k.c, old(k.st), k.st, Other(p), keep);
      SteadyMore(k.c, old(k.trace), trace, old(k.st), Other(p), keep, k.st);
      if err {
        return;
      }
    }
  }

  lemma AddAt(c: Config, k: seq<Rule>, p: nat, a: Addr)
    requires SortedByPriority(k) && Half(p) && a.family.V4? && c.table >= 256
    ensures forall q :: q != p ==> At(AddRule(k, Want(c, p, a)), q) == At(k, q)
    ensures At(k, p) == [] ==> Settled(c, AddRule(k, Want(c, p, a)), p, Some(a))
  {
    var want := Want(c, p, a);
    WantIsExact(c, p, a);
    hide Want, Exact, Items, Identity;
    forall q
      ensures At(AddRule(k, want), q) == At(k, q) || (q == p && At(AddRule(k, want), q) == At(k, q) + [want])
    {
      InsertAt(k, want, q);
    }
    ExactAt(k, want);
    InsertAt(k, want, p);
  }

  /** One half put right: other addresses' rules go by source; what is then not one exact rule is
      cleared and put back. The other half is not touched while this one is down. */
  method TidyHalf(k: Kernel, p: nat, keep: Opt<Addr>) returns (err: bool)
    requires k.Valid() && Half(p) && k.c.table >= 256
    requires keep.Some? ==> keep.v.family.V4? && HasFrom(k.st.rules, p, keep.v)
    modifies k
    ensures k.Valid() && k.st.addrs == old(k.st.addrs) && k.st.route == old(k.st.route)
    ensures Steady(k.c, old(k.trace), k.trace, old(k.st), Other(p), keep)
    ensures Holds(k.c, old(k.st), Other(p), keep) ==> Holds(k.c, k.st, Other(p), keep)
    ensures keep.Some? && HasFrom(old(k.st.rules), Other(p), keep.v) ==> HasFrom(k.st.rules, Other(p), keep.v)
    ensures OnlyKept(old(k.st.rules), Other(p), keep) ==> At(k.st.rules, Other(p)) == At(old(k.st.rules), Other(p))
    ensures forall q :: !Half(q) ==> At(k.st.rules, q) == At(old(k.st.rules), q)
    ensures !err ==> Settled(k.c, k.st.rules, p, keep)
  {
    hide Steady, Holds, HasFrom, OnlyKept, At, Settled, Want, Exact;
    SteadyStart(k.c, k.trace, k.st, Other(p), keep);
    var rules;
    rules, err := k.Rules(p);
    if err { return; }
    err := RemoveOthers(k, p, rules, keep);
    if err { return; }
    rules, err := k.Rules(p);
    if err { return; }
    var exact := AllExact(k.c, rules, p, keep);
    if |rules| <= 1 && exact {
      SettledIf(k.c, k.st.rules, p, keep);
      return;
    }
    ghost var st1, trace1 := k.st, k.trace;
    err := ClearHalf(k, p, |rules|, keep);
    HoldsAt(k.c, st1, k.st, Other(p), keep);
    HasFromAt(st1.rules, k.st.rules, Other(p), keep);
    SteadyThen(k.c, old(k.trace), trace1, k.trace, old(k.st), st1, Other(p), keep);
    if err { return; }
    if keep.Some? {
      ghost var st2, trace2 := k.st, k.trace;
      AddAt(k.c, k.st.rules, p, keep.v);
      err := k.Add(p, keep.v);
      HoldsAt(k.c, st2, k.st, Other(p), keep);
      HasFromAt(st2.rules, k.st.rules, Other(p), keep);
      SteadyMore(k.c, old(k.trace), trace2, old(k.st), Other(p), keep, k.st);
    } else {
      SettledNone(k.c, k.st.rules, p);
    }
  }

  lemma SteadyThen(c: Config, was: seq<State>, mid: seq<State>, now: seq<State>, st: State, st1: State, p: nat, keep: Opt<Addr>)
    requires Steady(c, was, mid, st, p, keep) && Steady(c, mid, now, st1, p, keep)
    requires st1.addrs == st.addrs && st1.route == st.route && (Holds(c, st, p, keep) ==> Holds(c, st1, p, keep))
    ensures Steady(c, was, now, st, p, keep)
  {
    hide Holds;
    forall i | |was| <= i < |now|
      ensures now[i].addrs == st.addrs && now[i].route == st.route
      ensures Holds(c, st, p, keep) ==> Holds(c, now[i], p, keep)
    {
      if i < |mid| {
        assert now[i] == mid[i];
      }
    }
  }

  method AllExact(c: Config, rules: seq<Rule>, p: nat, keep: Opt<Addr>) returns (exact: bool)
    requires forall r :: r in rules ==> r.priority == p
    ensures exact <==> forall r :: r in rules ==> keep.Some? && Exact(c, p, keep.v, r)
  {
    hide ViewOf, ViewExact;
    exact := true;
    for i := 0 to |rules|
      invariant exact <==> forall r :: r in rules[..i] ==> keep.Some? && Exact(c, p, keep.v, r)
    {
      exact := exact && keep.Some? && ViewExact(ViewOf(rules[i]), p, keep.v, c.table);
      assert rules[i] in rules;
      ExactSnoc(c, rules[..i], rules[i], p, keep);
      assert rules[..i + 1] == rules[..i] + [rules[i]];
    }
    assert rules[..|rules|] == rules;
  }

  lemma ExactSnoc(c: Config, rules: seq<Rule>, x: Rule, p: nat, keep: Opt<Addr>)
    ensures (forall r :: r in rules + [x] ==> keep.Some? && Exact(c, p, keep.v, r)) <==>
            (forall r :: r in rules ==> keep.Some? && Exact(c, p, keep.v, r)) && keep.Some? && Exact(c, p, keep.v, x)
  {
    hide Exact;
    assert x in rules + [x];
    assert forall r :: r in rules ==> r in rules + [x];
  }

  lemma FirstIsIn<T>(s: seq<T>)
    ensures |s| > 0 ==> s[0] in s
  {
  }

  lemma SettledIf(c: Config, k: seq<Rule>, p: nat, keep: Opt<Addr>)
    requires |At(k, p)| <= 1 && forall r :: r in At(k, p) ==> keep.Some? && Exact(c, p, keep.v, r)
    requires keep.Some? ==> HasFrom(k, p, keep.v)
    ensures Settled(c, k, p, keep)
  {
    hide Exact;
    FirstIsIn(At(k, p));
    if keep.Some? {
      var r :| r in k && r.priority == p && From(r, keep.v);
      AtMembers(k, r);
    }
  }

  lemma SettledNone(c: Config, k: seq<Rule>, p: nat)
    requires At(k, p) == []
    ensures Settled(c, k, p, None)
  {
  }

  /** A rule the kernel takes for the expected one is from the same address. */
  lemma TwinIsFrom(c: Config, p: nat, a: Addr, x: Rule)
    requires a.family.V4? && Half(p) && Identity(x) == Identity(Want(c, p, a))
    ensures x.priority == p && From(x, a)
  {
    HostIsMasked(a);
    FloorOne(x.src.v.addr.n);
  }

  lemma AddedIsFrom(c: Config, k: seq<Rule>, p: nat, a: Addr)
    requires a.family.V4? && Half(p) && c.table >= 256
    ensures HasFrom(AddRule(k, Want(c, p, a)), p, a)
  {
    var want := Want(c, p, a);
    WantIsExact(c, p, a);
    InsertMembers(k, want);
    if Duplicate(k, want) {
      var x :| x in k && Identity(x) == Identity(want);
      TwinIsFrom(c, p, a, x);
    } else {
      assert want in AddRule(k, want) && want.priority == p;
    }
  }

  /** Each half of the kept address's pair is in, or goes in when added. */
  predicate Takes(c: Config, k: seq<Rule>, a: Addr) {
    forall p :: p in {RETURN_PATH, BACKSTOP} ==> InPlace(c, k, p, a) || !Duplicate(k, Want(c, p, a))
  }

  predicate Grown(was: State, now: State) {
    now.addrs == was.addrs && now.route == was.route && forall r :: r in was.rules ==> r in now.rules
  }

  /** Nothing has been taken out yet, or the kept address has a half; it stays on the tunnel with
      the route. */
  predicate Good(c: Config, st0: State, st: State, keep: Opt<Addr>) {
    && (st0.route ==> st.route) && (keep.Some? ==> keep.v in st.addrs)
    && (keep.Some? && Takes(c, st0.rules, keep.v) ==>
        Grown(st0, st) || Holds(c, st, RETURN_PATH, keep) || Holds(c, st, BACKSTOP, keep))
  }

  ghost predicate AllGood(c: Config, st0: State, was: seq<State>, now: seq<State>, keep: Opt<Addr>) {
    was <= now && forall i :: |was| <= i < |now| ==> Good(c, st0, now[i], keep)
  }

  lemma GoodMore(c: Config, st0: State, was: seq<State>, now: seq<State>, keep: Opt<Addr>, st: State)
    requires AllGood(c, st0, was, now, keep) && Good(c, st0, st, keep)
    ensures AllGood(c, st0, was, now + [st], keep)
  {
    hide Good;
    forall i | |was| <= i < |now + [st]|
      ensures Good(c, st0, (now + [st])[i], keep)
    {
      if i < |now| {
        assert (now + [st])[i] == now[i];
      }
    }
  }

  lemma GoodThen(c: Config, st0: State, was: seq<State>, mid: seq<State>, now: seq<State>, keep: Opt<Addr>, st: State, p: nat)
    requires AllGood(c, st0, was, mid, keep) && Steady(c, mid, now, st, p, keep) && Half(p)
    requires (st0.route ==> st.route) && (keep.Some? ==> keep.v in st.addrs)
    requires keep.Some? && Takes(c, st0.rules, keep.v) ==> Holds(c, st, p, keep)
    ensures AllGood(c, st0, was, now, keep)
  {
    hide Takes, Grown, Holds;
    forall i | |was| <= i < |now|
      ensures Good(c, st0, now[i], keep)
    {
      if i < |mid| {
        assert now[i] == mid[i];
      }
    }
  }

  method FindExact(c: Config, rules: seq<Rule>, p: nat, keep: Addr) returns (exact: bool)
    requires forall r :: r in rules ==> r.priority == p
    ensures exact <==> exists r :: r in rules && Exact(c, p, keep, r)
  {
    hide ViewOf, ViewExact;
    exact := false;
    for i := 0 to |rules|
      invariant exact <==> exists r :: r in rules[..i] && Exact(c, p, keep, r)
    {
      assert rules[i] in rules;
      exact := exact || ViewExact(ViewOf(rules[i]), p, keep, c.table);
      assert rules[..i + 1] == rules[..i] + [rules[i]];
      assert rules[i] in rules[..i + 1];
    }
    assert rules[..|rules|] == rules;
  }

  lemma GrownMore(a: State, b: State, c: State)
    requires Grown(a, b) && Grown(b, c)
    ensures Grown(a, c)
  {
  }

  lemma AddGrows(st: State, want: Rule)
    ensures Grown(st, st.(rules := AddRule(st.rules, want))) && Grown(st, st)
  {
    InsertMembers(st.rules, want);
  }

  /** One half put in where it is missing. */
  method PutHalf(k: Kernel, p: nat, keep: Addr, ghost st0: State, ghost was: seq<State>) returns (err: bool)
    requires k.Valid() && Half(p) && keep.family.V4? && k.c.table >= 256 && keep in k.st.addrs
    requires Grown(st0, k.st) && AllGood(k.c, st0, was, k.trace, Some(keep))
    modifies k
    ensures k.Valid() && Grown(st0, k.st) && AllGood(k.c, st0, was, k.trace, Some(keep)) && Grown(old(k.st), k.st)
    ensures k.st.addrs == old(k.st.addrs) && k.st.route == old(k.st.route)
    ensures forall q :: q != p ==> At(k.st.rules, q) == At(old(k.st.rules), q)
    ensures !err ==> HasFrom(k.st.rules, p, keep)
    ensures !err && (InPlace(k.c, old(k.st.rules), p, keep) || !Duplicate(old(k.st.rules), Want(k.c, p, keep))) ==>
              InPlace(k.c, k.st.rules, p, keep)
  {
    hide AllGood, Takes, At, Want, HasFrom, InPlace, Duplicate, Exact;
    AddGrows(k.st, Want(k.c, p, keep));
    var rules;
    rules, err := k.Rules(p);
    if err { return; }
    InPlaceAt(k.c, k.st.rules, p, keep);
    var exact := FindExact(k.c, rules, p, keep);
    if exact {
      ExactIsFrom(k.c, k.st.rules, p, keep);
    } else {
      AddAt(k.c, k.st.rules, p, keep);
      AddedIff(k.c, k.st.rules, p, keep);
      AddedIsFrom(k.c, k.st.rules, p, keep);
      err := k.Add(p, keep);
      assert k.st == old(k.st).(rules := k.st.rules);
      GrownMore(st0, old(k.st), k.st);
      GoodMore(k.c, st0, was, old(k.trace), Some(keep), k.st);
    }
  }

  lemma ExactIsFrom(c: Config, k: seq<Rule>, p: nat, a: Addr)
    requires InPlace(c, k, p, a)
    ensures HasFrom(k, p, a)
  {
    var r :| r in k && Exact(c, p, a, r);
    assert From(r, a);
  }

  /** Takes every address but the kept one off the tunnel. */
  method DropExtras(k: Kernel, addresses: seq<Addr>, keep: Opt<Addr>, ghost st0: State, ghost was: seq<State>) returns (err: bool)
    requires k.Valid() && AllGood(k.c, st0, was, k.trace, keep) && Good(k.c, st0, k.st, keep)
    requires keep == None ==> addresses == []
    requires keep.Some? ==> keep.v.family.V4? && (Takes(k.c, st0.rules, keep.v) ==> Holds(k.c, k.st, RETURN_PATH, keep))
    modifies k
    ensures k.Valid() && AllGood(k.c, st0, was, k.trace, keep)
    ensures (st0.route ==> k.st.route) && (keep.Some? ==> keep.v in k.st.addrs)
    ensures k.st.rules == old(k.st.rules) && forall a :: a in k.st.addrs ==> a in old(k.st.addrs)
    ensures !err ==> forall a :: a in addresses && keep != Some(a) ==> a !in k.st.addrs
  {
    hide AllGood, Takes, Holds, AfterDrop, Grown;
    err := false;
    var extra := false;
    for i := 0 to |addresses|
      invariant k.Valid() && AllGood(k.c, st0, was, k.trace, keep) && Good(k.c, st0, k.st, keep)
      invariant k.st.rules == old(k.st.rules) && forall a :: a in k.st.addrs ==> a in old(k.st.addrs)
      invariant forall j :: 0 <= j < i && keep != Some(addresses[j]) ==> addresses[j] !in k.st.addrs
    {
      var a := addresses[i];
      if keep != Some(a) {
        extra := true;
        ghost var st, trace := k.st, k.trace;
        DropKeepsRoute(st, a, keep.v);
        err := k.Unassign(a);
        HoldsAt(k.c, old(k.st), k.st, RETURN_PATH, keep);
        GoodMore(k.c, st0, was, trace, keep, k.st);
        if err { return; }
      }
    }
    if extra {
      ghost var trace := k.trace;
      err := k.Route();
      HoldsAt(k.c, old(k.st), k.st, RETURN_PATH, keep);
      GoodMore(k.c, st0, was, trace, keep, k.st);
    }
  }

  /** The repair of the tunnel's address and its two rules. Every call done, one IPv4 address at
      most is left, with exactly one exact rule at each half. At every step on the way nothing has
      been taken out, or the kept address has an exact half. */
  method Reconcile(k: Kernel, recorded: Opt<Addr>) returns (err: bool)
    requires k.Valid() && k.c.table >= 256
    modifies k
    ensures k.Valid()
    ensures AllGood(k.c, old(k.st), old(k.trace), k.trace, Kept(V4Of(old(k.st.addrs)), recorded))
    ensures !err ==> Settled(k.c, k.st.rules, RETURN_PATH, Kept(V4Of(old(k.st.addrs)), recorded))
    ensures !err ==> Settled(k.c, k.st.rules, BACKSTOP, Kept(V4Of(old(k.st.addrs)), recorded))
    ensures !err ==> forall a :: a in k.st.addrs && a.family.V4? ==> Kept(V4Of(old(k.st.addrs)), recorded) == Some(a)
    ensures forall q :: !Half(q) ==> At(k.st.rules, q) == At(old(k.st.rules), q)
  {
    hide AllGood, Good, Takes, Holds, Grown, Settled, At, HasFrom, Steady, Want, Duplicate, InPlace, OnlyKept;
    ghost var st0, was := k.st, k.trace;
    ghost var final := Kept(V4Of(k.st.addrs), recorded);
    var addrs;
    addrs, err := k.Addresses();
    GoodStart(k.c, st0, was, final);
    if err { return; }
    var addresses := OnlyV4(addrs);
    var keep := FindKept(addresses, recorded);
    if keep.Some? {
      err := PutHalf(k, RETURN_PATH, keep.v, st0, was);
      if err { return; }
      ghost var mid := k.st;
      err := PutHalf(k, BACKSTOP, keep.v, st0, was);
      if err { return; }
      BothIn(k.c, st0, mid, k.st, keep.v);
    }
    GoodNow(k.c, st0, k.st, keep);
    ghost var st3 := k.st;
    err := DropExtras(k, addresses, keep, st0, was);
    if err { return; }
    HoldsAt(k.c, st3, k.st, RETURN_PATH, keep);
    HoldsAt(k.c, st3, k.st, BACKSTOP, keep);
    ghost var st1, trace1 := k.st, k.trace;
    err := TidyHalf(k, RETURN_PATH, keep);
    GoodThen(k.c, st0, was, trace1, k.trace, keep, st1, BACKSTOP);
    if err { return; }
    ghost var st2, trace2 := k.st, k.trace;
    SettledMeans(k.c, k.st, RETURN_PATH, keep);
    err := TidyHalf(k, BACKSTOP, keep);
    SettledAt(k.c, st2.rules, k.st.rules, RETURN_PATH, keep);
    GoodThen(k.c, st0, was, trace2, k.trace, keep, st2, RETURN_PATH);
  }

  lemma HasFromAt(was: seq<Rule>, now: seq<Rule>, p: nat, keep: Opt<Addr>)
    requires At(was, p) == At(now, p)
    ensures keep.Some? ==> (HasFrom(was, p, keep.v) <==> HasFrom(now, p, keep.v))
  {
    if keep.Some? {
      ListedIff(was, p, keep.v);
      ListedIff(now, p, keep.v);
    }
  }

  lemma SettledMeans(c: Config, st: State, p: nat, keep: Opt<Addr>)
    requires Settled(c, st.rules, p, keep)
    ensures OnlyKept(st.rules, p, keep) && (keep.Some? ==> Holds(c, st, p, keep))
  {
    if keep.Some? {
      assert At(st.rules, p)[0] in At(st.rules, p);
    }
  }

  lemma SettledAt(c: Config, was: seq<Rule>, now: seq<Rule>, p: nat, keep: Opt<Addr>)
    requires Settled(c, was, p, keep) && At(was, p) == At(now, p)
    ensures Settled(c, now, p, keep)
  {
  }

  /** After both halves are put in, the pair is there; exactly, if the kernel takes both. */
  lemma BothIn(c: Config, st0: State, mid: State, st: State, a: Addr)
    requires Grown(mid, st) && HasFrom(mid.rules, RETURN_PATH, a) && At(mid.rules, BACKSTOP) == At(st0.rules, BACKSTOP)
    requires InPlace(c, st0.rules, RETURN_PATH, a) || !Duplicate(st0.rules, Want(c, RETURN_PATH, a)) ==>
               InPlace(c, mid.rules, RETURN_PATH, a)
    requires InPlace(c, mid.rules, BACKSTOP, a) || !Duplicate(mid.rules, Want(c, BACKSTOP, a)) ==>
               InPlace(c, st.rules, BACKSTOP, a)
    ensures HasFrom(st.rules, RETURN_PATH, a)
    ensures Takes(c, st0.rules, a) ==> Holds(c, st, RETURN_PATH, Some(a)) && Holds(c, st, BACKSTOP, Some(a))
  {
    hide Exact, Identity, Want;
    WantPriority(c, a);
    ExactAt(st0.rules, Want(c, BACKSTOP, a));
    ExactAt(mid.rules, Want(c, BACKSTOP, a));
    InPlaceAt(c, st0.rules, BACKSTOP, a);
    InPlaceAt(c, mid.rules, BACKSTOP, a);
  }

  lemma WantPriority(c: Config, a: Addr)
    ensures Want(c, RETURN_PATH, a).priority == RETURN_PATH && Want(c, BACKSTOP, a).priority == BACKSTOP
  {
  }

  lemma GoodStart(c: Config, st0: State, was: seq<State>, keep: Opt<Addr>)
    requires keep.Some? ==> keep.v in st0.addrs
    ensures AllGood(c, st0, was, was, keep) && Grown(st0, st0)
  {
  }

  lemma GoodNow(c: Config, st0: State, st: State, keep: Opt<Addr>)
    requires Grown(st0, st) && (keep.Some? ==> keep.v in st0.addrs)
    ensures Good(c, st0, st, keep)
  {
  }
}
