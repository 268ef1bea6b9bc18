/**
Values put into classes that nothing tells apart, and the first of each class: how many there are
grows with the values and with what tells them apart.
*/
module Classes {
  lemma {:induction false} LeastOf(s: set<nat>) returns (m: nat)
    requires s != {}
    ensures m in s && forall x :: x in s ==> m <= x
    decreases |s|
  {
    var a :| a in s;
    var rest := s - {a};
    m := a;
    if rest != {} {
      var n := LeastOf(rest);
      m := if n < a then n else a;
    }
    assert forall x :: x in s ==> x == a || x in rest;
  }

  /** The first of each class. */
  ghost function Firsts(cs: set<nat>, like: (nat, nat) -> bool): set<nat> {
    set x | x in cs && forall c :: c in cs && like(c, x) ==> x <= c
  }

  ghost predicate Equivalence(like: (nat, nat) -> bool) {
    && (forall a :: like(a, a))
    && (forall a, b :: like(a, b) ==> like(b, a))
    && (forall a, b, c :: like(a, b) && like(b, c) ==> like(a, c))
  }

  /** Whatever one tells apart the other does. */
  ghost predicate Finer(fine: (nat, nat) -> bool, coarse: (nat, nat) -> bool) {
    forall a, b :: fine(a, b) ==> coarse(a, b)
  }

  lemma FirstOf(cs: set<nat>, like: (nat, nat) -> bool, x: nat) returns (y: nat)
    requires Equivalence(like) && x in cs
    ensures y in Firsts(cs, like) && like(x, y)
  {
    var same := set c | c in cs && like(c, x);
    assert x in same;
    y := LeastOf(same);
    assert like(y, x);
    forall c | c in cs && like(c, y)
      ensures y <= c
    {
      assert like(c, x);
      assert c in same;
    }
  }

  /** Each x is related to some y, and no y to two: there are at least as many. */
  lemma {:induction false} Injects(a: set<nat>, b: set<nat>, rel: (nat, nat) -> bool)
    requires forall x :: x in a ==> exists y :: y in b && rel(x, y)
    requires forall x, z, y :: x in a && z in a && y in b && rel(x, y) && rel(z, y) ==> x == z
    ensures |a| <= |b|
    decreases |a|
  {
    if a != {} {
      var x :| x in a;
      var y :| y in b && rel(x, y);
      forall z | z in a - {x}
        ensures exists w :: w in b - {y} && rel(z, w)
      {
        var w :| w in b && rel(z, w);
        assert w in b - {y};
      }
      Injects(a - {x}, b - {y}, rel);
    }
  }

  /** More values, told apart more finely, have no fewer classes. */
  lemma FirstsGrow(cs: set<nat>, like: (nat, nat) -> bool, more: set<nat>, fine: (nat, nat) -> bool)
    requires cs <= more && Equivalence(fine) && Finer(fine, like)
    ensures |Firsts(cs, like)| <= |Firsts(more, fine)|
  {
    var a, b := Firsts(cs, like), Firsts(more, fine);
    forall x | x in a
      ensures exists y :: y in b && fine(x, y)
    {
      var y := FirstOf(more, fine, x);
    }
    forall x, z, y | x in a && z in a && y in b && fine(x, y) && fine(z, y)
      ensures x == z
    {
      assert fine(y, z) && fine(y, x);
      assert fine(x, z) && fine(z, x);
    }
    Injects(a, b, fine);
  }

  /** Values that share a tag are of one class: there are no more classes than tags. */
  lemma FirstsAtMost(cs: set<nat>, like: (nat, nat) -> bool, tag: nat -> nat, tags: set<nat>)
    requires (forall x :: tag(x) in tags) && forall x, y :: tag(x) == tag(y) ==> like(x, y)
    ensures |Firsts(cs, like)| <= |tags|
  {
    var a := Firsts(cs, like);
    var rel := (x: nat, y: nat) => tag(x) == y;
    forall x | x in a
      ensures exists y :: y in tags && rel(x, y)
    {
      assert rel(x, tag(x));
    }
    Injects(a, tags, rel);
  }

  lemma SubsetCount(a: set<nat>, b: set<nat>)
    requires a <= b
    ensures |a| <= |b|
  {
    assert b == a + (b - a);
  }

  function Times(a: nat, b: nat): nat {
    a * b
  }

  lemma TimesGrow(a: nat, b: nat, c: nat, d: nat)
    requires a <= c && b <= d
    ensures Times(a, b) <= Times(c, d)
  {
    assert a * b <= c * b;
  }
}
