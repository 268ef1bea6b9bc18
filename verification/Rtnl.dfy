/**
The kernel's policy rules and routes as the contract sees them: the fields of a
rule, its canonical items, the kernel's imprecise delete, and the rule list the
kernel keeps in priority order.
*/
module Rtnl {

  datatype Opt<+T> = None | Some(v: T)

  datatype Family = V4 | V6

  /** One value for each address family. */
  datatype Pair<T> = Pair(v4: T, v6: T) {
    function At(f: Family): T {
      if f.V4? then v4 else v6
    }

    function With(f: Family, x: T): (r: Pair<T>)
      ensures r.At(f) == x
      ensures forall g :: g != f ==> r.At(g) == At(g)
    {
      if f.V4? then Pair(x, v6) else Pair(v4, x)
    }
  }

  // ---- addresses ----

  datatype Addr = Addr(family: Family, n: nat)

  function Width(f: Family): nat {
    if f.V4? then 32 else 128
  }

  function Pow2(k: nat): (r: nat)
    ensures r >= 1
  {
    if k == 0 then 1 else 2 * Pow2(k - 1)
  }

  /** The greatest multiple of size that is at most n. */
  function Floor(n: nat, size: nat): (r: nat)
    requires size >= 1
    ensures r <= n < r + size
  {
    if n < size then 0 else size + Floor(n - size, size)
  }

  datatype Prefix = Prefix(addr: Addr, len: nat) {
    /** The number of addresses the prefix spans. */
    function Size(): (r: nat)
      ensures r >= 1
    {
      var w := Width(addr.family);
      if len <= w then Pow2(w - len) else 1
    }

    function First(): nat {
      Floor(addr.n, Size())
    }

    predicate Contains(a: Addr) {
      a.family == addr.family && First() <= a.n < First() + Size()
    }

    function Masked(): Prefix {
      Prefix(Addr(addr.family, First()), len)
    }
  }

  function HostPrefix(a: Addr): Prefix {
    Prefix(a, Width(a.family))
  }

  function MaskedOpt(p: Opt<Prefix>): Opt<Prefix> {
    match p
    case None => None
    case Some(x) => Some(x.Masked())
  }

  predicate IsLoopback(a: Addr) {
    if a.family.V4? then a.n / 0x1000000 == 127 else a.n == 1
  }

  // ---- rules ----

  const ACT_TO_TABLE := 1
  const ACT_GOTO := 2
  const ACT_NOP := 3
  const ACT_BLACKHOLE := 6
  const ACT_UNREACHABLE := 7
  const ACT_PROHIBIT := 8

  const TABLE_DEFAULT := 253
  const TABLE_MAIN := 254
  const TABLE_LOCAL := 255

  const ALL_ONES := 0xffff_ffff

  /** An attribute the codec keeps raw; the first four are the ones the policy model evaluates. */
  datatype RawAttr =
    | UidRange(lo: nat, hi: nat)
    | SportRange(lo: nat, hi: nat)
    | DportRange(lo: nat, hi: nat)
    | Dscp(value: nat)
    | OtherAttr(kind: nat, data: seq<nat>)

  /** One FIB rule. The flag word is split into its semantic bits (invert, extraFlags)
      and the bookkeeping bits that are ignored when rules are compared. */
  datatype Rule = Rule(
    family: Family,
    priority: nat,
    action: nat,
    table: nat,
    invert: bool,
    extraFlags: nat,
    permanent: bool,
    iifDetached: bool,
    oifDetached: bool,
    tos: nat,
    src: Opt<Prefix>,
    dst: Opt<Prefix>,
    iif: string,
    oif: string,
    fwMark: Opt<nat>,
    fwMask: Opt<nat>,
    ipProto: Opt<nat>,
    suppressPrefixLen: Opt<nat>,
    suppressIfGroup: Opt<nat>,
    jump: Opt<nat>,
    l3mdev: Opt<nat>,
    protocol: Opt<nat>,
    unknown: seq<RawAttr>,
    bad: bool
  ) {
    /** The mark and mask the kernel matches with: a missing mark is 0, a missing mask is
        all ones for a nonzero mark and no selector otherwise. */
    function EffectiveMark(): (nat, nat) {
      var mark := if fwMark.Some? then fwMark.v else 0;
      var mask := if fwMask.Some? then fwMask.v else if mark != 0 then ALL_ONES else 0;
      (mark, mask)
    }
  }

  /** A rule of the family with no selectors. */
  function Bare(f: Family, priority: nat, action: nat, table: nat): Rule {
    Rule(f, priority, action, table, false, 0, false, false, false, 0, None, None, "", "",
         None, None, None, None, None, None, None, None, [], false)
  }

  datatype ActItem = Lookup(table: nat) | GotoNothing | Nop | Blackhole | Unreachable | Prohibit | Act(n: nat)

  /** The canonical items of a rule, one optional item per key (`from` is always there, as
      "from all" or a masked prefix), the raw attributes as a set. Bookkeeping flags, the
      priority and the installer are not part of it. */
  datatype Shape = Shape(
    invert: bool,
    src: Opt<Prefix>,
    dst: Opt<Prefix>,
    tos: Opt<nat>,
    mark: Opt<(nat, nat)>,
    iif: string,
    oif: string,
    ipProto: Opt<nat>,
    l3mdev: Opt<nat>,
    suppressPrefixLen: Opt<nat>,
    suppressIfGroup: Opt<nat>,
    act: Opt<ActItem>,
    table: Opt<nat>,
    jump: Opt<nat>,
    extraFlags: Opt<nat>,
    unknown: set<RawAttr>,
    bad: bool
  )

  function ActionItem(r: Rule): Opt<ActItem> {
    if r.action == ACT_TO_TABLE then Some(Lookup(r.table))
    else if r.action == ACT_GOTO then (if r.jump.Some? then None else Some(GotoNothing))
    else if r.action == ACT_NOP then Some(Nop)
    else if r.action == ACT_BLACKHOLE then Some(Blackhole)
    else if r.action == ACT_UNREACHABLE then Some(Unreachable)
    else if r.action == ACT_PROHIBIT then Some(Prohibit)
    else Some(Act(r.action))
  }

  function Items(r: Rule): Shape {
    var (mark, mask) := r.EffectiveMark();
    Shape(
      r.invert,
      MaskedOpt(r.src),
      MaskedOpt(r.dst),
      if r.tos != 0 then Some(r.tos) else None,
      if mask != 0 then Some((mark, mask)) else None,
      r.iif, r.oif, r.ipProto, r.l3mdev, r.suppressPrefixLen, r.suppressIfGroup,
      ActionItem(r),
      if r.action != ACT_TO_TABLE && r.table != 0 then Some(r.table) else None,
      r.jump,
      if r.extraFlags != 0 then Some(r.extraFlags) else None,
      (set u | u in r.unknown),
      r.bad
    )
  }

  predicate Within<T(==)>(a: Opt<T>, b: Opt<T>) {
    a.None? || a == b
  }

  /** Every item of a is an item of b. "from all" is an item, so the source must agree. */
  predicate SubsetOf(a: Shape, b: Shape) {
    && (a.invert ==> b.invert)
    && a.src == b.src
    && Within(a.dst, b.dst)
    && Within(a.tos, b.tos)
    && Within(a.mark, b.mark)
    && (a.iif == "" || a.iif == b.iif)
    && (a.oif == "" || a.oif == b.oif)
    && Within(a.ipProto, b.ipProto)
    && Within(a.l3mdev, b.l3mdev)
    && Within(a.suppressPrefixLen, b.suppressPrefixLen)
    && Within(a.suppressIfGroup, b.suppressIfGroup)
    && Within(a.act, b.act)
    && Within(a.table, b.table)
    && Within(a.jump, b.jump)
    && Within(a.extraFlags, b.extraFlags)
    && a.unknown <= b.unknown
    && (a.bad ==> b.bad)
  }

  /** A numeric attribute of a delete request: absent or zero is a wildcard. */
  predicate Wild(req: Opt<nat>, x: Opt<nat>) {
    req.None? || req.v == 0 || req == x
  }

  predicate WildPrefix(req: Opt<Prefix>, x: Opt<Prefix>) {
    req.None? || req.v.len == 0 || req == x
  }

  /** Whether the kernel's rule delete would take x for the request. Not set means zero,
      and the invert flag is not compared. */
  predicate DeleteMatches(req: Rule, x: Rule) {
    && req.priority == x.priority
    && (req.action == 0 || req.action == x.action)
    && (req.table == 0 || req.table == x.table)
    && (req.iif == "" || req.iif == x.iif)
    && (req.oif == "" || req.oif == x.oif)
    && Wild(req.fwMark, x.fwMark)
    && Wild(req.fwMask, x.fwMask)
    && (req.suppressIfGroup.None? || req.suppressIfGroup == x.suppressIfGroup)
    && (req.suppressPrefixLen.None? || req.suppressPrefixLen == x.suppressPrefixLen)
    && Wild(req.l3mdev, x.l3mdev)
    && Wild(req.ipProto, x.ipProto)
    && Wild(req.protocol, x.protocol)
    && WildPrefix(req.src, x.src)
    && WildPrefix(req.dst, x.dst)
    && (req.tos == 0 || req.tos == x.tos)
    && (forall u :: u in req.unknown ==> u in x.unknown)
  }

  // ---- the kernel's rule list ----

  predicate SortedByPriority(k: seq<Rule>) {
    forall i, j :: 0 <= i < j < |k| ==> k[i].priority <= k[j].priority
  }

  /** The rules at one priority, in list order. */
  function At(k: seq<Rule>, p: nat): (r: seq<Rule>)
    ensures forall x :: x in r ==> x in k && x.priority == p
  {
    if |k| == 0 then []
    else if k[0].priority == p then [k[0]] + At(k[1..], p)
    else At(k[1..], p)
  }

  /** A rule is added after the rules of its priority already there. */
  function Insert(k: seq<Rule>, r: Rule): (k': seq<Rule>)
    ensures |k'| == |k| + 1
  {
    if |k| == 0 then [r]
    else if k[0].priority > r.priority then [r] + k
    else [k[0]] + Insert(k[1..], r)
  }

  /** The index of the first rule a delete by attributes takes, or the length of the list. */
  function FirstMatch(k: seq<Rule>, req: Rule): (i: nat)
    ensures i <= |k|
    ensures i < |k| ==> DeleteMatches(req, k[i])
    ensures forall j :: 0 <= j < i ==> !DeleteMatches(req, k[j])
  {
    if |k| == 0 then 0
    else if DeleteMatches(req, k[0]) then 0
    else 1 + FirstMatch(k[1..], req)
  }

  function FirstAt(k: seq<Rule>, p: nat): (i: nat)
    ensures i <= |k|
    ensures i < |k| ==> k[i].priority == p
    ensures forall j :: 0 <= j < i ==> k[j].priority != p
  {
    if |k| == 0 then 0
    else if k[0].priority == p then 0
    else 1 + FirstAt(k[1..], p)
  }

  function Without(k: seq<Rule>, i: nat): seq<Rule>
    requires i <= |k|
  {
    if i < |k| then k[..i] + k[i + 1..] else k
  }

  function DeleteRule(k: seq<Rule>, req: Rule): seq<Rule> {
    Without(k, FirstMatch(k, req))
  }

  function DeletePriority(k: seq<Rule>, p: nat): seq<Rule> {
    Without(k, FirstAt(k, p))
  }

  /** The kernel's identity of a rule for an add: everything but the invert flag. */
  function Identity(r: Rule): (nat, Shape) {
    (r.priority, Items(r).(invert := false))
  }

  /** The kernel answers EEXIST to adding r. */
  predicate Duplicate(k: seq<Rule>, r: Rule) {
    exists x :: x in k && Identity(x) == Identity(r)
  }

  /** Adding a rule the kernel has (but for inversion) changes nothing. */
  function AddRule(k: seq<Rule>, r: Rule): seq<Rule> {
    if Duplicate(k, r) then k else Insert(k, r)
  }

  function AddAll(k: seq<Rule>, rs: seq<Rule>): seq<Rule>
    decreases |rs|
  {
    if |rs| == 0 then k else AddAll(AddRule(k, rs[0]), rs[1..])
  }

  /** A rule with exactly these selectors and action at its priority. */
  predicate HasExact(k: seq<Rule>, r: Rule) {
    exists x :: x in k && x.priority == r.priority && Items(x) == Items(r)
  }

  // ---- what an edit does to one priority ----

  lemma {:induction false} AtConcat(a: seq<Rule>, b: seq<Rule>, p: nat)
    ensures At(a + b, p) == At(a, p) + At(b, p)
  {
    if |a| == 0 {
      assert a + b == b;
    } else {
      assert (a + b)[1..] == a[1..] + b;
      AtConcat(a[1..], b, p);
    }
  }

  lemma {:induction false} AtMembers(k: seq<Rule>, x: Rule)
    ensures x in k <==> x in At(k, x.priority)
  {
    if |k| > 0 {
      AtMembers(k[1..], x);
    }
  }

  lemma {:induction false} AtAbsent(k: seq<Rule>, p: nat)
    requires forall x :: x in k ==> x.priority != p
    ensures At(k, p) == []
  {
    if |k| > 0 {
      AtAbsent(k[1..], p);
    }
  }

  lemma {:induction false} AtAll(k: seq<Rule>, p: nat)
    requires forall x :: x in k ==> x.priority == p
    ensures At(k, p) == k
  {
    if |k| > 0 {
      AtAll(k[1..], p);
    }
  }

  lemma {:induction false} InsertMembers(k: seq<Rule>, r: Rule)
    ensures multiset(Insert(k, r)) == multiset(k) + multiset{r}
    ensures forall x :: x in Insert(k, r) <==> x in k || x == r
  {
    if |k| == 0 {
    } else if k[0].priority > r.priority {
    } else {
      InsertMembers(k[1..], r);
      assert k == [k[0]] + k[1..];
    }
  }

  lemma {:induction false} InsertSorted(k: seq<Rule>, r: Rule)
    requires SortedByPriority(k)
    ensures SortedByPriority(Insert(k, r))
  {
    if |k| == 0 {
    } else if k[0].priority > r.priority {
    } else {
      InsertSorted(k[1..], r);
      InsertMembers(k[1..], r);
      var t := Insert(k[1..], r);
      forall j | 0 <= j < |t|
        ensures k[0].priority <= t[j].priority
      {
        assert t[j] in t;
        if t[j] != r {
          var i :| 0 <= i < |k[1..]| && k[1..][i] == t[j];
        }
      }
    }
  }

  lemma {:induction false} InsertAt(k: seq<Rule>, r: Rule, p: nat)
    requires SortedByPriority(k)
    ensures At(Insert(k, r), p) == if p == r.priority then At(k, p) + [r] else At(k, p)
  {
    if |k| == 0 {
    } else if k[0].priority > r.priority {
      assert ([r] + k)[1..] == k;
      if p == r.priority {
        AtAbsent(k, p);
      }
    } else {
      InsertAt(k[1..], r, p);
      assert Insert(k, r)[1..] == Insert(k[1..], r);
    }
  }

  lemma {:induction false} WithoutSorted(k: seq<Rule>, i: nat)
    requires SortedByPriority(k) && i <= |k|
    ensures SortedByPriority(Without(k, i))
    ensures forall x :: x in Without(k, i) ==> x in k
  {
    if i < |k| {
      var w := Without(k, i);
      forall a, b | 0 <= a < b < |w|
        ensures w[a].priority <= w[b].priority
      {
        var a' := if a < i then a else a + 1;
        var b' := if b < i then b else b + 1;
        assert w[a] == k[a'] && w[b] == k[b'];
      }
    }
  }

  lemma {:induction false} DeleteRuleAt(k: seq<Rule>, req: Rule, p: nat)
    ensures At(DeleteRule(k, req), p) == if p == req.priority then DeleteRule(At(k, p), req) else At(k, p)
  {
    hide DeleteRule, DeleteMatches;
    if |k| == 0 {
      DeleteNone(req);
    } else if DeleteMatches(req, k[0]) {
      DeleteFirst(k, req);
      if p == req.priority {
        DeleteFirst(At(k, p), req);
        assert At(k, p)[1..] == At(k[1..], p);
      }
    } else {
      DeleteRuleAt(k[1..], req, p);
      DeleteCons(k, req);
      if p == req.priority && k[0].priority == p {
        DeleteCons(At(k, p), req);
        assert At(k, p)[1..] == At(k[1..], p);
      }
    }
  }

  lemma DeleteNone(req: Rule)
    ensures DeleteRule([], req) == []
  {
  }

  lemma DeleteFirst(k: seq<Rule>, req: Rule)
    requires |k| > 0 && DeleteMatches(req, k[0])
    ensures DeleteRule(k, req) == k[1..] && k[0].priority == req.priority
  {
  }

  lemma DeleteCons(k: seq<Rule>, req: Rule)
    requires |k| > 0 && !DeleteMatches(req, k[0])
    ensures DeleteRule(k, req) == [k[0]] + DeleteRule(k[1..], req)
  {
    var i := FirstMatch(k[1..], req);
    if i < |k[1..]| {
      assert k[..i + 1] == [k[0]] + k[1..][..i];
      assert k[i + 2..] == k[1..][i + 1..];
    }
  }

  lemma {:induction false} DeletePriorityAt(k: seq<Rule>, q: nat, p: nat)
    ensures At(DeletePriority(k, q), p) == if p == q && |At(k, p)| > 0 then At(k, p)[1..] else At(k, p)
  {
    if |k| == 0 {
    } else if k[0].priority == q {
      assert DeletePriority(k, q) == k[1..];
    } else {
      DeletePriorityAt(k[1..], q, p);
      DeletePriorityCons(k, q);
    }
  }

  lemma DeletePriorityCons(k: seq<Rule>, q: nat)
    requires |k| > 0 && k[0].priority != q
    ensures DeletePriority(k, q) == [k[0]] + DeletePriority(k[1..], q)
  {
    var i := FirstAt(k[1..], q);
    if i < |k[1..]| {
      assert k[..i + 1] == [k[0]] + k[1..][..i];
      assert k[i + 2..] == k[1..][i + 1..];
    }
  }

  lemma MatchesItself(r: Rule)
    ensures DeleteMatches(r, r)
  {
  }

  lemma ExactAt(k: seq<Rule>, r: Rule)
    ensures HasExact(k, r) <==> HasExact(At(k, r.priority), r)
    ensures Duplicate(k, r) <==> Duplicate(At(k, r.priority), r)
  {
    forall x | x in k && x.priority == r.priority
      ensures x in At(k, r.priority)
    {
      AtMembers(k, x);
    }
  }
}
