/**
The number the gate compares with its limit is the number of packets it judges, and as many again
as it skips because they are to the unspecified destination.
*/
module Counted {
  import opened Rtnl
  import opened Contract
  import opened Policy
  import opened Escape
  import opened Marks
  import opened Points
  import opened Classes

  ghost function Pairs<S(!new), T(!new)>(a: set<S>, b: set<T>): set<(S, T)> {
    set x, y | x in a && y in b :: (x, y)
  }

  lemma {:induction false} RowCount<S(!new), T(!new)>(x: S, b: set<T>)
    ensures |Pairs({x}, b)| == |b|
    decreases |b|
  {
    if b == {} {
      assert Pairs({x}, b) == {};
    } else {
      var y :| y in b;
      RowCount(x, b - {y});
      assert Pairs({x}, b) == Pairs({x}, b - {y}) + {(x, y)};
    }
  }

  lemma {:induction false} PairsCount<S(!new), T(!new)>(a: set<S>, b: set<T>)
    ensures |Pairs(a, b)| == Times(|a|, |b|)
    decreases |a|
  {
    if a == {} {
      assert Pairs(a, b) == {};
    } else {
      var x :| x in a;
      PairsCount(a - {x}, b);
      RowCount(x, b);
      assert Pairs(a, b) == Pairs(a - {x}, b) + Pairs({x}, b);
      assert Pairs(a - {x}, b) !! Pairs({x}, b);
      TimesStep(|a| - 1, |b|);
    }
  }

  lemma TimesStep(n: nat, m: nat)
    ensures Times(n + 1, m) == Times(n, m) + m
  {
  }

  // ---- the judged packets ----

  type Trait = (nat, (nat, nat))
  type Fields = (nat, (nat, (nat, bool)))
  type Key = (string, (Trait, (Fields, (nat, nat))))

  function PacketOf(f: Family, k: Key): Packet {
    var (iif, (x, (v, (src, dst)))) := k;
    Packet(f, iif, x.0, x.1.0, Addr(f, src), Addr(f, dst), x.1.1, v.0, v.1.0, v.1.1.0, v.1.1.1)
  }

  function KeyOf(q: Packet): Key {
    (q.iif, ((q.mark, (q.proto, q.tos)), ((q.sport, (q.dport, (q.uid, q.l3))), (q.src.n, q.dst.n))))
  }

  ghost function TraitKeys(c: Config, f: Family, sels: set<Sel>): set<Trait> {
    Pairs(JudgedMarks(c, sels), Pairs(Protos(sels, f), Toses(sels)))
  }

  ghost function FieldKeys(s: State, s': State, f: Family): set<Fields> {
    Pairs(JudgedField(s, s', f, Sport), Pairs(JudgedField(s, s', f, Dport), Pairs(JudgedField(s, s', f, User), JudgedL3(s, s', f))))
  }

  ghost function Keys(s: State, s': State, f: Family): set<Key> {
    Pairs({s.spec.config.overlayIf, "lo"},
          Pairs(TraitKeys(s.spec.config, f, BothAsks(s, s', f)),
                Pairs(FieldKeys(s, s', f), Pairs(JudgedSources(s, s', f), JudgedTargets(s, s', f)))))
  }

  ghost function JudgedPackets(s: State, s': State, f: Family): set<Packet> {
    set k | k in Keys(s, s', f) :: PacketOf(f, k)
  }

  lemma InPairs<S(!new), T(!new)>(a: set<S>, b: set<T>, x: S, y: T)
    ensures (x, y) in Pairs(a, b) <==> x in a && y in b
  {
  }

  lemma TraitIn(c: Config, f: Family, sels: set<Sel>, m: nat, n: nat, t: nat)
    ensures (m, (n, t)) in TraitKeys(c, f, sels) <==> JudgedTraits(c, f, sels, Traits(m, n, t))
  {
    hide Pairs, Protos, Toses, MarkCands;
    InPairs(Protos(sels, f), Toses(sels), n, t);
    InPairs(JudgedMarks(c, sels), Pairs(Protos(sels, f), Toses(sels)), m, (n, t));
  }

  lemma FieldsIn(s: State, s': State, f: Family, a: nat, b: nat, u: nat, l: bool)
    ensures (a, (b, (u, l))) in FieldKeys(s, s', f) <==>
            a in JudgedField(s, s', f, Sport) && b in JudgedField(s, s', f, Dport) && u in JudgedField(s, s', f, User) && l in JudgedL3(s, s', f)
  {
    hide Pairs, JudgedField, JudgedL3;
    var ul := Pairs(JudgedField(s, s', f, User), JudgedL3(s, s', f));
    InPairs(JudgedField(s, s', f, User), JudgedL3(s, s', f), u, l);
    InPairs(JudgedField(s, s', f, Dport), ul, b, (u, l));
    InPairs(JudgedField(s, s', f, Sport), Pairs(JudgedField(s, s', f, Dport), ul), a, (b, (u, l)));
  }

  lemma KeyIn(s: State, s': State, q: Packet)
    ensures KeyOf(q) in Keys(s, s', q.f) <==>
            && q.iif in {s.spec.config.overlayIf, "lo"}
            && JudgedTraits(s.spec.config, q.f, BothAsks(s, s', q.f), TraitsOf(q))
            && (forall k :: ValueOf(q, k) in JudgedField(s, s', q.f, k)) && q.l3 in JudgedL3(s, s', q.f)
            && q.src.n in JudgedSources(s, s', q.f) && q.dst.n in JudgedTargets(s, s', q.f)
  {
    hide Pairs, JudgedField, JudgedL3, JudgedSources, JudgedTargets, TraitKeys, FieldKeys, JudgedTraits, BothAsks;
    var f, c, sels := q.f, s.spec.config, BothAsks(s, s', q.f);
    var x, v := (q.mark, (q.proto, q.tos)), (q.sport, (q.dport, (q.uid, q.l3)));
    var ends := Pairs(JudgedSources(s, s', f), JudgedTargets(s, s', f));
    TraitIn(c, f, sels, q.mark, q.proto, q.tos);
    FieldsIn(s, s', f, q.sport, q.dport, q.uid, q.l3);
    InPairs(JudgedSources(s, s', f), JudgedTargets(s, s', f), q.src.n, q.dst.n);
    InPairs(FieldKeys(s, s', f), ends, v, (q.src.n, q.dst.n));
    InPairs(TraitKeys(c, f, sels), Pairs(FieldKeys(s, s', f), ends), x, (v, (q.src.n, q.dst.n)));
    InPairs({c.overlayIf, "lo"}, Pairs(TraitKeys(c, f, sels), Pairs(FieldKeys(s, s', f), ends)), q.iif, (x, (v, (q.src.n, q.dst.n))));
    assert (forall k :: ValueOf(q, k) in JudgedField(s, s', f, k)) <==>
           q.sport in JudgedField(s, s', f, Sport) && q.dport in JudgedField(s, s', f, Dport) && q.uid in JudgedField(s, s', f, User) by {
      assert ValueOf(q, Sport) == q.sport && ValueOf(q, Dport) == q.dport && ValueOf(q, User) == q.uid;
    }
  }

  lemma KeyBack(f: Family, k: Key, q: Packet)
    requires q == PacketOf(f, k)
    ensures KeyOf(q) == k && q.f == f && q.src.family == f && q.dst.family == f
  {
    var x, v, ends := k.1.0, k.1.1.0, k.1.1.1;
    assert x == (x.0, x.1) && x.1 == (x.1.0, x.1.1);
    assert v == (v.0, v.1) && v.1 == (v.1.0, v.1.1) && v.1.1 == (v.1.1.0, v.1.1.1);
    assert ends == (ends.0, ends.1);
    assert k == (k.0, k.1) && k.1 == (x, k.1.1) && k.1.1 == (v, ends);
  }

  lemma PacketBack(q: Packet)
    requires q.src.family == q.f && q.dst.family == q.f
    ensures PacketOf(q.f, KeyOf(q)) == q
  {
    assert Addr(q.f, q.src.n) == q.src && Addr(q.f, q.dst.n) == q.dst;
  }

  /** The set holds exactly the packets of the family that a change is judged on. */
  lemma JudgedIs(s: State, s': State, f: Family, q: Packet)
    ensures q in JudgedPackets(s, s', f) <==> q.f == f && JudgedOn(s, s', q)
  {
    hide Keys, JudgedOn, PacketOf, KeyOf, JudgedField, JudgedL3, JudgedSources, JudgedTargets, JudgedTraits, BothAsks;
    JudgedIff(s, s', q);
    KeyIn(s, s', q);
    if q in JudgedPackets(s, s', f) {
      var k :| k in Keys(s, s', f) && q == PacketOf(f, k);
      KeyBack(f, k, q);
    }
    if q.f == f && JudgedOn(s, s', q) {
      PacketBack(q);
      assert q == PacketOf(f, KeyOf(q));
    }
  }

  // ---- how many ----

  lemma {:induction false} ImageCount(f: Family, a: set<Key>)
    ensures |set k | k in a :: PacketOf(f, k)| == |a|
    decreases |a|
  {
    hide PacketOf;
    if a != {} {
      var k :| k in a;
      var rest := a - {k};
      ImageCount(f, rest);
      var some, all := set x | x in rest :: PacketOf(f, x), set x | x in a :: PacketOf(f, x);
      assert all == some + {PacketOf(f, k)};
      assert PacketOf(f, k) !in some by {
        if PacketOf(f, k) in some {
          var x :| x in rest && PacketOf(f, x) == PacketOf(f, k);
          KeyBack(f, x, PacketOf(f, k));
          KeyBack(f, k, PacketOf(f, k));
        }
      }
    } else {
      assert (set k | k in a :: PacketOf(f, k)) == {};
    }
  }

  lemma KeysCount(s: State, s': State, f: Family)
    ensures |Keys(s, s', f)| ==
            Times(|{s.spec.config.overlayIf, "lo"}|,
                  Times(TraitPoints(s.spec.config, f, BothAsks(s, s', f)),
                        Times(FieldPoints(s, s', f), Times(|JudgedSources(s, s', f)|, |JudgedTargets(s, s', f)|))))
  {
    hide Pairs, Times, JudgedField, JudgedL3, JudgedSources, JudgedTargets, JudgedMarks, Protos, Toses, BothAsks;
    var c, sels := s.spec.config, BothAsks(s, s', f);
    var u, l, b := JudgedField(s, s', f, User), JudgedL3(s, s', f), JudgedField(s, s', f, Dport);
    var ends := Pairs(JudgedSources(s, s', f), JudgedTargets(s, s', f));
    PairsCount(Protos(sels, f), Toses(sels));
    PairsCount(JudgedMarks(c, sels), Pairs(Protos(sels, f), Toses(sels)));
    PairsCount(u, l);
    PairsCount(b, Pairs(u, l));
    PairsCount(JudgedField(s, s', f, Sport), Pairs(b, Pairs(u, l)));
    PairsCount(JudgedSources(s, s', f), JudgedTargets(s, s', f));
    PairsCount(FieldKeys(s, s', f), ends);
    PairsCount(TraitKeys(c, f, sels), Pairs(FieldKeys(s, s', f), ends));
    PairsCount({c.overlayIf, "lo"}, Pairs(TraitKeys(c, f, sels), Pairs(FieldKeys(s, s', f), ends)));
  }

  lemma TimesApart(i: nat, t: nat, n: nat, src: nat, dst: nat)
    ensures Times(i, Times(t, Times(n, Times(src, dst + 1)))) ==
            Times(i, Times(t, Times(n, Times(src, dst)))) + Times(i, Times(t, Times(n, src)))
  {
    assert Times(src, dst + 1) == Times(src, dst) + src;
    TimesPlus(n, Times(src, dst), src);
    TimesPlus(t, Times(n, Times(src, dst)), Times(n, src));
    TimesPlus(i, Times(t, Times(n, Times(src, dst))), Times(t, Times(n, src)));
  }

  lemma TimesPlus(a: nat, b: nat, c: nat)
    ensures Times(a, b + c) == Times(a, b) + Times(a, c)
  {
  }

  /** Where the overlay's interface is not the loopback, the number compared with the limit is that
      of the packets judged and of those left out for their destination; where it is, it is more. */
  lemma CountIs(s: State, s': State, f: Family)
    ensures |JudgedPackets(s, s', f)| <= PointCount(s, s', f)
    ensures s.spec.config.overlayIf != "lo" ==>
              PointCount(s, s', f) == |JudgedPackets(s, s', f)|
                + Times(2, Times(TraitPoints(s.spec.config, f, BothAsks(s, s', f)), Times(FieldPoints(s, s', f), |JudgedSources(s, s', f)|)))
  {
    hide Keys, Times, TraitPoints, FieldPoints, JudgedSources, JudgedTargets, BothAsks, PacketOf;
    var t, n := TraitPoints(s.spec.config, f, BothAsks(s, s', f)), FieldPoints(s, s', f);
    var src, dst, i := |JudgedSources(s, s', f)|, |JudgedTargets(s, s', f)|, |{s.spec.config.overlayIf, "lo"}|;
    var some := Times(t, Times(n, Times(src, dst)));
    ImageCount(f, Keys(s, s', f));
    KeysCount(s, s', f);
    TimesApart(2, t, n, src, dst);
    TimesGrow(i, some, 2, some);
  }
}
