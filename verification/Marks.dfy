/**
The marks, protocols and types of service a deletion is judged on, and exactly which others
they stand for.
*/
module Marks {
  import opened Rtnl
  import opened Contract
  import opened Policy
  import opened Classes

  // ---- what rules and routes select on ----

  datatype Sel = MarkSel(mark: nat, mask: nat) | ProtoSel(proto: nat) | TosSel(tos: nat) | DscpSel(dscp: nat)

  datatype Traits = Traits(mark: nat, proto: nat, tos: nat)

  function TraitsOf(p: Packet): Traits {
    Traits(p.mark, p.proto, p.tos)
  }

  predicate Picks(sel: Sel, x: Traits) {
    match sel
    case MarkSel(mark, mask) => MaskedEqual(mark, x.mark, mask)
    case ProtoSel(proto) => x.proto == proto
    case TosSel(tos) => x.tos == tos
    case DscpSel(dscp) => x.tos / 4 == dscp
  }

  predicate LooksAtMark(r: Rule) {
    r.EffectiveMark().1 != 0
  }

  function MarkSels(rules: seq<Rule>): set<Sel> {
    set r | r in rules && LooksAtMark(r) :: MarkSel(r.EffectiveMark().0, r.EffectiveMark().1)
  }

  function ProtoSels(rules: seq<Rule>): set<Sel> {
    set r | r in rules && r.ipProto.Some? && r.ipProto.v != 0 :: ProtoSel(r.ipProto.v)
  }

  function TosSels(rules: seq<Rule>): set<Sel> {
    (set r | r in rules && r.tos != 0 :: TosSel(r.tos))
    + (set r, i | r in rules && 0 <= i < |r.unknown| && Counts(r.unknown, i) && r.unknown[i].Dscp? :: DscpSel(r.unknown[i].value))
  }

  /** The selectors of marks, protocols and types of service. */
  function Asks(rules: seq<Rule>, routes: set<Route>): set<Sel> {
    MarkSels(rules) + ProtoSels(rules) + TosSels(rules)
    + (set rt | rt in routes && rt.family.V4? && rt.tos != 0 :: TosSel(rt.tos))
  }

  /** No selector tells the two apart. */
  predicate SameTraits(sels: set<Sel>, x: Traits, y: Traits) {
    forall sel :: sel in sels ==> (Picks(sel, x) <==> Picks(sel, y))
  }

  /** What a selector of a rule or route can be: it looks at something, and a DSCP has six bits. */
  predicate Real(sel: Sel) {
    match sel
    case MarkSel(_, mask) => mask != 0
    case ProtoSel(proto) => proto != 0
    case TosSel(tos) => tos != 0
    case DscpSel(dscp) => dscp < 64
  }

  predicate AllReal(sels: set<Sel>) {
    forall sel :: sel in sels ==> Real(sel)
  }

  // ---- marks ----

  /** The selectors agree on two marks. */
  predicate MarkAlike(sels: set<Sel>, a: nat, b: nat) {
    forall sel :: sel in sels && sel.MarkSel? ==> (MaskedEqual(sel.mark, a, sel.mask) <==> MaskedEqual(sel.mark, b, sel.mask))
  }

  function Xor(a: nat, b: nat): nat
    decreases a + b
  {
    if a == 0 && b == 0 then 0 else (a + b) % 2 + 2 * Xor(a / 2, b / 2)
  }

  function Or(a: nat, b: nat): nat
    decreases a + b
  {
    if a == 0 && b == 0 then 0 else (if a % 2 == 1 || b % 2 == 1 then 1 else 0) + 2 * Or(a / 2, b / 2)
  }

  function LowestBit(mask: nat): nat
    decreases mask
  {
    if mask == 0 then 0 else if mask % 2 == 1 then 1 else 2 * LowestBit(mask / 2)
  }

  /** The candidate marks: the ones the rules select on, their complements within the mask and
      in its lowest bit, the contract's, none and everything. */
  function MarkCands(c: Config, sels: set<Sel>): set<nat> {
    {0, ALL_ONES, c.controlMark, Or(c.controlMark, 0x21), GLUETUN_MARK}
    + (set s | s in sels && s.MarkSel? :: s.mark)
    + (set s | s in sels && s.MarkSel? :: Xor(s.mark, s.mask))
    + (set s | s in sels && s.MarkSel? :: Xor(s.mark, LowestBit(s.mask)))
  }

  predicate MarkSig(c: Config, sels: set<Sel>, a: nat, b: nat) {
    && MarkAlike(sels, a, b) && (a == c.controlMark <==> b == c.controlMark)
    && (a == GLUETUN_MARK <==> b == GLUETUN_MARK)
  }

  /** The first candidate of its signature. */
  predicate JudgedMark(c: Config, sels: set<Sel>, m: nat) {
    && m in MarkCands(c, sels)
    && forall x :: x in MarkCands(c, sels) && MarkSig(c, sels, x, m) ==> m <= x
  }

  /** Some candidate is one the rules cannot tell from the mark. */
  predicate MarkCovered(c: Config, sels: set<Sel>, m: nat) {
    exists x :: x in MarkCands(c, sels) && MarkAlike(sels, x, m)
  }

  /** A mark that a candidate stands for has a judged one that does. */
  lemma MarkFor(c: Config, sels: set<Sel>, m: nat) returns (x: nat)
    requires MarkCovered(c, sels, m)
    ensures JudgedMark(c, sels, x) && MarkAlike(sels, x, m)
  {
    var y :| y in MarkCands(c, sels) && MarkAlike(sels, y, m);
    hide MarkCands, MaskedEqual;
    var like := set z | z in MarkCands(c, sels) && MarkSig(c, sels, z, y);
    assert y in like;
    x := LeastOf(like);
    forall z | z in MarkCands(c, sels) && MarkSig(c, sels, z, x)
      ensures x <= z
    {
      assert MarkSig(c, sels, z, y);
      assert z in like;
    }
  }

  lemma {:induction false} MaskedTrans(a: nat, b: nat, c: nat, mask: nat)
    requires MaskedEqual(a, b, mask)
    ensures MaskedEqual(c, a, mask) <==> MaskedEqual(c, b, mask)
    decreases mask
  {
    if mask != 0 {
      MaskedTrans(a / 2, b / 2, c / 2, mask / 2);
    }
  }

  /** A mark turned round within the mask is not selected. */
  lemma {:induction false} TurnedDiffers(a: nat, mask: nat)
    requires mask != 0
    ensures !MaskedEqual(a, Xor(a, mask), mask)
    decreases mask
  {
    assert Xor(a, mask) / 2 == Xor(a / 2, mask / 2);
    if mask % 2 == 0 {
      TurnedDiffers(a / 2, mask / 2);
    }
  }

  predicate Unselected(sels: set<Sel>, m: nat) {
    forall sel :: sel in sels && sel.MarkSel? ==> !MaskedEqual(sel.mark, m, sel.mask)
  }

  predicate OneMask(sels: set<Sel>, mask: nat) {
    forall sel :: sel in sels && sel.MarkSel? ==> sel.mask == mask
  }

  /** Where all rules look at the mark through one mask, a mark is covered exactly if a rule
      selects it or some candidate is selected by none. */
  lemma OneMaskIff(c: Config, sels: set<Sel>, mask: nat, m: nat)
    requires OneMask(sels, mask)
    ensures MarkCovered(c, sels, m) <==>
            !Unselected(sels, m) || exists x :: x in MarkCands(c, sels) && Unselected(sels, x)
  {
    hide MaskedEqual;
    if !Unselected(sels, m) {
      var sel :| sel in sels && sel.MarkSel? && MaskedEqual(sel.mark, m, sel.mask);
      forall x | x in sels && x.MarkSel?
        ensures MaskedEqual(x.mark, sel.mark, x.mask) <==> MaskedEqual(x.mark, m, x.mask)
      {
        MaskedTrans(sel.mark, m, x.mark, mask);
      }
      assert sel.mark in MarkCands(c, sels) && MarkAlike(sels, sel.mark, m);
    } else {
      hide MarkCands;
      forall x | x in MarkCands(c, sels)
        ensures MarkAlike(sels, x, m) <==> Unselected(sels, x)
      {
      }
    }
  }

  /** Rules that look for one mark only, as the contract's do, cover every mark. */
  lemma OneMarkCovers(c: Config, sels: set<Sel>, only: Sel, m: nat)
    requires AllReal(sels) && only.MarkSel? && forall sel :: sel in sels && sel.MarkSel? ==> sel == only
    ensures MarkCovered(c, sels, m)
  {
    hide MaskedEqual, Xor, Or, LowestBit;
    OneMaskIff(c, sels, only.mask, m);
    if only !in sels {
      assert 0 in MarkCands(c, sels) && Unselected(sels, 0);
    } else {
      TurnedDiffers(only.mark, only.mask);
      assert Xor(only.mark, only.mask) in MarkCands(c, sels) && Unselected(sels, Xor(only.mark, only.mask));
    }
  }

  // ---- protocols ----

  /** The selectors agree on two protocols. */
  predicate ProtoAlike(sels: set<Sel>, a: nat, b: nat) {
    forall sel :: sel in sels && sel.ProtoSel? ==> (sel.proto == a <==> sel.proto == b)
  }

  /** The protocols judged: those the rules select, ICMP, TCP, UDP and another. */
  function Protos(sels: set<Sel>, f: Family): set<nat> {
    {Icmp(f), 6, 17, 253} + (set s | s in sels && s.ProtoSel? :: s.proto)
  }

  predicate ProtoCovered(sels: set<Sel>, f: Family, n: nat) {
    exists m :: m in Protos(sels, f) && ProtoAlike(sels, m, n)
  }

  /** A protocol is covered exactly if it is judged itself or the rules leave ICMP, TCP, UDP or
      the other one alone. */
  lemma ProtoCoveredIff(sels: set<Sel>, f: Family, n: nat)
    ensures ProtoCovered(sels, f, n) <==>
            n in Protos(sels, f) || exists m :: m in {Icmp(f), 6, 17, 253} && ProtoSel(m) !in sels
  {
    if n in Protos(sels, f) {
      assert ProtoAlike(sels, n, n);
    } else if exists m :: m in {Icmp(f), 6, 17, 253} && ProtoSel(m) !in sels {
      var m :| m in {Icmp(f), 6, 17, 253} && ProtoSel(m) !in sels;
      assert m in Protos(sels, f) && ProtoAlike(sels, m, n);
    } else {
      forall m | m in Protos(sels, f)
        ensures !ProtoAlike(sels, m, n)
      {
        assert ProtoSel(m) in sels;
      }
    }
  }

  // ---- types of service ----

  /** The selectors agree on two types of service. */
  predicate TosAlike(sels: set<Sel>, a: nat, b: nat) {
    && (forall sel :: sel in sels && sel.TosSel? ==> (sel.tos == a <==> sel.tos == b))
    && (forall sel :: sel in sels && sel.DscpSel? ==> (a / 4 == sel.dscp <==> b / 4 == sel.dscp))
  }

  function AskedToses(sels: set<Sel>): set<nat> {
    {0} + (set s | s in sels && s.TosSel? :: s.tos) + (set s | s in sels && s.DscpSel? :: s.dscp * 4 % 256)
  }

  /** The first of four values that nothing asks for. */
  function OtherTos(asked: set<nat>): set<nat> {
    if asked == {0} then {}
    else if 0xe0 !in asked then {0xe0}
    else if 0xb8 !in asked then {0xb8}
    else if 0x28 !in asked then {0x28}
    else if 0x04 !in asked then {0x04}
    else {}
  }

  /** The types of service judged. */
  function Toses(sels: set<Sel>): set<nat> {
    AskedToses(sels) + OtherTos(AskedToses(sels))
  }

  predicate TosCovered(sels: set<Sel>, t: nat) {
    exists x :: x in Toses(sels) && TosAlike(sels, x, t)
  }

  /** A type of service is covered exactly if it is judged itself; or a rule asks for its DSCP and
      nothing for that DSCP's own value; or no rule does, and zero or another value is free. */
  lemma TosCoveredIff(sels: set<Sel>, t: nat)
    requires AllReal(sels)
    ensures TosCovered(sels, t) <==>
            || t in Toses(sels)
            || (if DscpSel(t / 4) in sels then TosSel(t / 4 * 4) !in sels
                else DscpSel(0) !in sels || OtherTos(AskedToses(sels)) != {})
  {
    if t in Toses(sels) {
      assert TosAlike(sels, t, t);
    } else if DscpSel(t / 4) in sels {
      DscpCoveredIff(sels, t);
    } else {
      FreeCoveredIff(sels, t);
    }
  }

  lemma DscpCoveredIff(sels: set<Sel>, t: nat)
    requires AllReal(sels) && t !in Toses(sels) && DscpSel(t / 4) in sels
    ensures TosCovered(sels, t) <==> TosSel(t / 4 * 4) !in sels
  {
    var own := t / 4 * 4;
    DscpJudged(sels, t / 4);
    NotAsked(sels, t);
    if TosSel(own) !in sels {
      assert TosAlike(sels, own, t);
    } else {
      forall x | x in Toses(sels)
        ensures !TosAlike(sels, x, t)
      {
        if TosSel(x) !in sels && x / 4 == t / 4 {
          JudgedIsOwn(sels, x);
        }
      }
    }
  }

  lemma NotAsked(sels: set<Sel>, t: nat)
    requires t !in Toses(sels)
    ensures t != 0 && TosSel(t) !in sels
  {
  }

  lemma DscpJudged(sels: set<Sel>, d: nat)
    requires DscpSel(d) in sels && d < 64
    ensures d * 4 in AskedToses(sels)
  {
    assert DscpSel(d).dscp * 4 % 256 == d * 4;
  }

  lemma DscpBack(d: nat, x: nat)
    requires d < 64 && x == d * 4 % 256
    ensures x % 4 == 0 && x / 4 == d
  {
    assert x == d * 4;
  }

  lemma AskedIsDscp(sels: set<Sel>, x: nat)
    requires AllReal(sels) && x in AskedToses(sels) && x != 0 && TosSel(x) !in sels
    ensures x % 4 == 0 && DscpSel(x / 4) in sels
  {
    var s :| s in sels && s.DscpSel? && x == s.dscp * 4 % 256;
    DscpBack(s.dscp, x);
  }

  /** What is judged and not asked for as a type of service is a DSCP's own value, zero, or the
      other one. */
  lemma JudgedIsOwn(sels: set<Sel>, x: nat)
    requires AllReal(sels) && x in Toses(sels) && TosSel(x) !in sels
    ensures x % 4 == 0
    ensures x in AskedToses(sels) ==> x == 0 || DscpSel(x / 4) in sels
  {
    hide AskedToses;
    if x in AskedToses(sels) && x != 0 {
      AskedIsDscp(sels, x);
    }
  }

  lemma FreeCoveredIff(sels: set<Sel>, t: nat)
    requires AllReal(sels) && t !in Toses(sels) && DscpSel(t / 4) !in sels
    ensures TosCovered(sels, t) <==> DscpSel(0) !in sels || OtherTos(AskedToses(sels)) != {}
  {
    var asked := AskedToses(sels);
    NotAsked(sels, t);
    if DscpSel(0) !in sels {
      ZeroFree(sels, t);
    } else if OtherTos(asked) != {} {
      var o :| o in OtherTos(asked);
      OtherIsFree(sels, o);
      assert TosAlike(sels, o, t);
    } else {
      forall x | x in Toses(sels)
        ensures !TosAlike(sels, x, t)
      {
        if TosSel(x) !in sels {
          JudgedIsOwn(sels, x);
        }
      }
    }
  }

  lemma ZeroFree(sels: set<Sel>, t: nat)
    requires AllReal(sels) && TosSel(t) !in sels && DscpSel(t / 4) !in sels && DscpSel(0) !in sels
    ensures 0 in Toses(sels) && TosAlike(sels, 0, t)
  {
  }

  lemma OtherIsFree(sels: set<Sel>, o: nat)
    requires AllReal(sels) && o in OtherTos(AskedToses(sels))
    ensures TosSel(o) !in sels && DscpSel(o / 4) !in sels
  {
    if DscpSel(o / 4) in sels {
      DscpJudged(sels, o / 4);
    }
  }

  /** Without a rule that asks for a DSCP every type of service is covered. */
  lemma NoDscpCovers(sels: set<Sel>, t: nat)
    requires AllReal(sels) && forall d :: DscpSel(d) !in sels
    ensures TosCovered(sels, t)
  {
    TosCoveredIff(sels, t);
  }

  // ---- all three ----

  predicate JudgedTraits(c: Config, f: Family, sels: set<Sel>, x: Traits) {
    JudgedMark(c, sels, x.mark) && x.proto in Protos(sels, f) && x.tos in Toses(sels)
  }

  function JudgedMarks(c: Config, sels: set<Sel>): set<nat> {
    set m | m in MarkCands(c, sels) && JudgedMark(c, sels, m)
  }

  /** How many marks, protocols and types of service are judged together. */
  function TraitPoints(c: Config, f: Family, sels: set<Sel>): nat {
    Times(|JudgedMarks(c, sels)|, Times(|Protos(sels, f)|, |Toses(sels)|))
  }

  predicate Covered(c: Config, f: Family, sels: set<Sel>, x: Traits) {
    MarkCovered(c, sels, x.mark) && ProtoCovered(sels, f, x.proto) && TosCovered(sels, x.tos)
  }

  lemma SameTraitsIff(sels: set<Sel>, x: Traits, y: Traits)
    ensures SameTraits(sels, x, y) <==>
            MarkAlike(sels, x.mark, y.mark) && ProtoAlike(sels, x.proto, y.proto) && TosAlike(sels, x.tos, y.tos)
  {
    hide MaskedEqual;
    if MarkAlike(sels, x.mark, y.mark) && ProtoAlike(sels, x.proto, y.proto) && TosAlike(sels, x.tos, y.tos) {
      forall sel | sel in sels
        ensures Picks(sel, x) <==> Picks(sel, y)
      {
      }
    }
    if SameTraits(sels, x, y) {
      forall sel | sel in sels
        ensures Picks(sel, x) <==> Picks(sel, y)
      {
      }
    }
  }

  /** Covered traits are those a judged packet has, as far as the selectors can tell. */
  lemma CoveredFor(c: Config, f: Family, sels: set<Sel>, x: Traits) returns (y: Traits)
    requires Covered(c, f, sels, x)
    ensures JudgedTraits(c, f, sels, y) && SameTraits(sels, y, x)
  {
    hide MarkCovered, JudgedMark, MarkAlike, Toses, Protos, SameTraits;
    var m := MarkFor(c, sels, x.mark);
    var n :| n in Protos(sels, f) && ProtoAlike(sels, n, x.proto);
    var t :| t in Toses(sels) && TosAlike(sels, t, x.tos);
    y := Traits(m, n, t);
    SameTraitsIff(sels, y, x);
  }

  lemma UncoveredTold(c: Config, f: Family, sels: set<Sel>, x: Traits, y: Traits)
    requires !Covered(c, f, sels, x) && JudgedTraits(c, f, sels, y)
    ensures !SameTraits(sels, y, x)
  {
    hide MarkAlike, ProtoAlike, TosAlike, MarkCands, Toses, Protos, SameTraits;
    SameTraitsIff(sels, y, x);
  }
}
