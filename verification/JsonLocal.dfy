/**
What is read depends only on the bytes it took: the same bytes before other text are read
the same, so long as a number is still followed by something that ends it.
*/
module JsonLocal {
  import opened Json

  predicate Agree(s: string, t: string, n: nat) {
    n <= |s| && n <= |t| && s[..n] == t[..n]
  }

  /** A byte that can follow a value. */
  predicate Delim(c: char) {
    IsWS(c) || c == ',' || c == '}' || c == ']'
  }

  predicate Ends(t: string, n: nat) {
    |t| == n || (|t| > n && Delim(t[n]))
  }

  lemma AgreeLong(s: string, t: string, n: nat)
    requires Agree(s, t, n)
    ensures n <= |s| && n <= |t|
  {
  }

  lemma AgreeAt(s: string, t: string, n: nat, i: nat)
    requires Agree(s, t, n) && i < n
    ensures s[i] == t[i]
  {
    assert s[i] == s[..n][i];
  }

  lemma AgreeFrom(s: string, t: string, n: nat, a: nat)
    requires Agree(s, t, n) && a <= n
    ensures Agree(s[a..], t[a..], n - a) && s[a..n] == t[a..n]
  {
    assert s[a..][..n - a] == s[..n][a..];
    assert t[a..][..n - a] == t[..n][a..];
    assert s[a..n] == s[..n][a..] && t[a..n] == t[..n][a..];
  }

  lemma AgreeLess(s: string, t: string, n: nat, m: nat)
    requires Agree(s, t, n) && m <= n
    ensures Agree(s, t, m)
  {
    assert s[..m] == s[..n][..m] && t[..m] == t[..n][..m];
  }

  lemma {:induction false} WSLocal(s: string, t: string, n: nat)
    requires Agree(s, t, n) && WS(s) < n
    ensures WS(t) == WS(s)
  {
    AgreeAt(s, t, n, 0);
    if IsWS(s[0]) {
      AgreeFrom(s, t, n, 1);
      WSLocal(s[1..], t[1..], n - 1);
    }
  }

  lemma EscapeLocal(s: string, t: string, n: nat)
    requires Agree(s, t, n) && 8 <= n && HasHex4(s, 2) && (s[6] == '\\' && s[7] == 'u' ==> 12 <= n)
    ensures HasHex4(t, 2) && EscapeLen(t) == EscapeLen(s) && EscapeRune(t) == EscapeRune(s)
  {
    forall i | 0 <= i < n
      ensures s[i] == t[i]
    {
      AgreeAt(s, t, n, i);
    }
  }

  lemma EscapeShort(s: string, t: string, n: nat)
    requires Agree(s, t, n) && 7 <= n && HasHex4(s, 2) && s[6] != '\\'
    ensures HasHex4(t, 2) && EscapeLen(t) == EscapeLen(s) && EscapeRune(t) == EscapeRune(s)
  {
    forall i | 0 <= i < n
      ensures s[i] == t[i]
    {
      AgreeAt(s, t, n, i);
    }
  }

  /** An escape is followed by the closing quote or by more of the string, which settles whether
      a second escape completes it. */
  lemma HeadEscapeLocal(s: string, t: string, n: nat)
    requires StrTail(s).Text? && n == StrTail(s).n && Agree(s, t, n) && |s| >= 2 && s[0] == '\\' && s[1] == 'u'
    ensures HasHex4(s, 2) && HasHex4(t, 2) && EscapeLen(t) == EscapeLen(s) && EscapeRune(t) == EscapeRune(s)
  {
    hide HexVal, EscapeRune;
    var k := EscapeLen(s);
    var rest := s[k..];
    assert n == k + StrTail(rest).n;
    if k == 6 {
      assert rest[0] == s[6];
      if s[6] == '\\' {
        assert rest[1] == s[7];
        assert StrTail(rest).n == HeadOf(rest).k + StrTail(rest[HeadOf(rest).k..]).n;
        EscapeLocal(s, t, n);
      } else {
        EscapeShort(s, t, n);
      }
    } else {
      EscapeLocal(s, t, n);
    }
  }

  lemma HeadLocal(s: string, t: string, n: nat)
    requires StrTail(s).Text? && n == StrTail(s).n && Agree(s, t, n)
    ensures HeadOf(t) == HeadOf(s)
  {
    AgreeAt(s, t, n, 0);
    if s[0] == '\\' {
      assert n >= 2;
      AgreeAt(s, t, n, 1);
      if s[1] == 'u' {
        HeadEscapeLocal(s, t, n);
      }
    }
  }

  lemma {:induction false} StrLocal(s: string, t: string)
    requires StrTail(s).Text? && Agree(s, t, StrTail(s).n)
    ensures StrTail(t) == StrTail(s)
    decreases |s|
  {
    var n := StrTail(s).n;
    HeadLocal(s, t, n);
    if HeadOf(s).Next? {
      var k := HeadOf(s).k;
      AgreeFrom(s, t, n, k);
      StrLocal(s[k..], t[k..]);
    }
  }

  lemma {:induction false} DigitsLocal(s: string, t: string)
    requires Agree(s, t, Digits(s)) && (|t| == Digits(s) || !IsDigit(t[Digits(s)]))
    ensures Digits(t) == Digits(s)
  {
    var n := Digits(s);
    if n > 0 {
      AgreeAt(s, t, n, 0);
      AgreeFrom(s, t, n, 1);
      DigitsLocal(s[1..], t[1..]);
    }
  }

  /** What follows is no part of a number. */
  predicate NumberEnds(t: string, n: nat) {
    |t| == n || (|t| > n && !IsDigit(t[n]) && t[n] != '.' && t[n] != 'e' && t[n] != 'E')
  }

  lemma IntLocal(s: string, t: string, n: nat)
    requires IntPart(s).Span? && IntPart(s).n <= n && Agree(s, t, n)
    requires n > IntPart(s).n || NumberEnds(t, n)
    ensures IntPart(t) == IntPart(s)
  {
    AgreeAt(s, t, n, 0);
    var a := if s[0] == '-' then 1 else 0;
    AgreeAt(s, t, n, a);
    if s[a] != '0' {
      var k := Digits(s[a..]);
      AgreeFrom(s, t, n, a);
      AgreeLess(s[a..], t[a..], n - a, k);
      if a + k < n {
        AgreeAt(s, t, n, a + k);
      }
      DigitsLocal(s[a..], t[a..]);
    }
  }

  lemma FracLocal(s: string, t: string, n: nat)
    requires FracPart(s).Span? && FracPart(s).n <= n && Agree(s, t, n)
    requires n > FracPart(s).n || NumberEnds(t, n)
    ensures FracPart(t) == FracPart(s)
  {
    if n > 0 {
      AgreeAt(s, t, n, 0);
      if s[0] == '.' {
        var k := Digits(s[1..]);
        AgreeFrom(s, t, n, 1);
        AgreeLess(s[1..], t[1..], n - 1, k);
        if 1 + k < n {
          AgreeAt(s, t, n, 1 + k);
        }
        DigitsLocal(s[1..], t[1..]);
      }
    }
  }

  lemma ExpLocal(s: string, t: string, n: nat)
    requires ExpPart(s).Span? && ExpPart(s).n == n && Agree(s, t, n) && NumberEnds(t, n)
    ensures ExpPart(t) == ExpPart(s)
  {
    if n > 0 {
      AgreeAt(s, t, n, 0);
      AgreeAt(s, t, n, 1);
      var a := 1 + SignLen(s[1..]);
      assert s[1..][0] == s[1] && t[1..][0] == t[1];
      AgreeFrom(s, t, n, a);
      DigitsLocal(s[a..], t[a..]);
    }
  }

  lemma NumberLocal(s: string, t: string)
    requires Number(s).Span? && Agree(s, t, Number(s).n) && NumberEnds(t, Number(s).n)
    ensures Number(t) == Number(s)
  {
    hide IntPart, FracPart, ExpPart, Digits;
    var n := Number(s).n;
    var i := IntPart(s).n;
    var f := FracPart(s[i..]).n;
    var e := ExpPart(s[i + f..]).n;
    IntLocal(s, t, n);
    AgreeFrom(s, t, n, i);
    FracLocal(s[i..], t[i..], n - i);
    AgreeFrom(s, t, n, i + f);
    ExpLocal(s[i + f..], t[i + f..], e);
  }

  lemma QuotedLocal(s: string, t: string, n: nat)
    requires |s| > 0 && Str(s).Text? && Str(s).n <= n && Agree(s, t, n)
    ensures |t| > 0 && Str(t) == Str(s)
  {
    AgreeFrom(s, t, n, 1);
    AgreeLess(s[1..], t[1..], n - 1, StrTail(s[1..]).n);
    StrLocal(s[1..], t[1..]);
  }

  lemma LiteralLocal(s: string, t: string, n: nat, word: string)
    requires Agree(s, t, n) && |word| <= n
    ensures word <= s <==> word <= t
  {
    assert s[..|word|] == s[..n][..|word|] && t[..|word|] == t[..n][..|word|];
  }

  // ---- values, objects and arrays together ----

  lemma {:induction false} ValueLocal(s: string, t: string, depth: nat)
    requires Value(s, depth).Val? && Agree(s, t, Value(s, depth).n) && Ends(t, Value(s, depth).n)
    ensures Value(t, depth) == Value(s, depth)
    decreases |s|, 2
  {
    var n := Value(s, depth).n;
    AgreeAt(s, t, n, 0);
    NestingKept(s, depth);
    if s[0] == '{' {
      ObjectLocal(s, t, depth + 1);
    } else if s[0] == '[' {
      ArrayLocal(s, t, depth + 1);
    } else if s[0] == '"' {
      QuotedLocal(s, t, n);
    } else {
      ScalarLocal(s, t, depth, n);
    }
  }

  lemma NestingKept(s: string, depth: nat)
    requires Value(s, depth).Val?
    ensures s[0] == '{' || s[0] == '[' ==> depth + 1 <= MAX_NESTING
  {
  }

  lemma ScalarLocal(s: string, t: string, depth: nat, n: nat)
    requires Value(s, depth).Val? && Value(s, depth).n == n && Agree(s, t, n) && Ends(t, n)
    requires |s| > 0 && s[0] != '{' && s[0] != '[' && s[0] != '"'
    ensures Value(t, depth) == Value(s, depth)
  {
    hide Number, Object, Array, Str, Agree;
    AgreeAt(s, t, n, 0);
    if "true" <= s {
      LiteralLocal(s, t, n, "true");
    } else if "false" <= s {
      LiteralLocal(s, t, n, "false");
    } else if "null" <= s {
      LiteralLocal(s, t, n, "null");
    } else {
      NumberLocal(s, t);
    }
  }

  // Each reader opened once, so that the proofs below need not open it again.

  lemma ObjectOpens(s: string, depth: nat)
    requires |s| > 0 && depth <= MAX_NESTING
    ensures var w := WS(s[1..]);
            if 1 + w < |s| && s[1 + w] == '}' then Object(s, depth) == Members(w + 2, [], false)
            else
              var m := MemberList(s[1..], depth, {});
              Object(s, depth) == if m.BadMembers? then BadMembers else Members(1 + m.n, m.list, m.dup)
  {
  }

  lemma ArrayOpens(s: string, depth: nat)
    requires |s| > 0 && depth <= MAX_NESTING
    ensures var w := WS(s[1..]);
            if 1 + w < |s| && s[1 + w] == ']' then Array(s, depth) == Elements(w + 2, false)
            else
              var m := ElementList(s[1..], depth);
              Array(s, depth) == if m.BadElements? then BadElements else Elements(1 + m.n, m.dup)
  {
  }

  lemma {:induction false} ListOpens(s: string, depth: nat, seen: set<string>)
    ensures var one := OneMember(s, depth);
            if one.BadMember? then MemberList(s, depth, seen) == BadMembers
            else if s[one.end] == '}' then
              MemberList(s, depth, seen) == Members(one.end + 1, [one.piece], one.piece.name in seen || one.piece.dup)
            else
              var m := MemberList(s[one.end + 1..], depth, seen + {one.piece.name});
              MemberList(s, depth, seen) ==
              if m.BadMembers? then BadMembers
              else Members(one.end + 1 + m.n, [one.piece] + m.list, one.piece.name in seen || one.piece.dup || m.dup)
  {
    hide Value, Object, Array, OneMember, ElementList, WS, KeyOf, MemberOf;
  }

  /** What one element and the byte after it come to. */
  function ElementsOf(s: string, v: Val, g: Span, rest: Elements): Elements
    requires g.Span? ==> g.n < |s|
  {
    if v.BadVal? || g.NoSpan? then BadElements
    else if s[g.n] == ']' then Elements(g.n + 1, v.dup)
    else if rest.BadElements? then BadElements
    else Elements(g.n + 1 + rest.n, v.dup || rest.dup)
  }

  lemma {:induction false} ElementsOpen(s: string, depth: nat)
    ensures var v := Value(s[WS(s)..], depth);
            if v.BadVal? then ElementList(s, depth) == BadElements
            else
              var g := AfterElement(s, WS(s) + v.n);
              ElementList(s, depth) ==
              ElementsOf(s, v, g, if g.Span? then ElementList(s[g.n + 1..], depth) else BadElements)
  {
    hide Value, Object, Array, OneMember, MemberList, WS, AfterElement;
  }

  lemma MemberOpens(s: string, depth: nat)
    ensures var k := KeyOf(s);
            if k.BadKey? then OneMember(s, depth) == BadMember
            else
              var v := Value(s[k.d..], depth);
              OneMember(s, depth) == if v.BadVal? then BadMember else MemberOf(s, k, v)
  {
  }

  lemma ColonLocal(s: string, t: string, n: nat, b: nat)
    requires b <= |s| && ColonAfter(s, b).Span? && ColonAfter(s, b).n < n && Agree(s, t, n)
    ensures b <= |t| && ColonAfter(t, b) == ColonAfter(s, b)
  {
    hide WS;
    AgreeFrom(s, t, n, b);
    WSLocal(s[b..], t[b..], n - b);
    var c := b + WS(s[b..]);
    AgreeAt(s, t, n, c);
    AgreeFrom(s, t, n, c + 1);
    WSLocal(s[c + 1..], t[c + 1..], n - c - 1);
  }

  lemma KeyLocal(s: string, t: string, n: nat)
    requires KeyOf(s).KeyRead? && KeyOf(s).d < n && Agree(s, t, n)
    ensures KeyOf(t) == KeyOf(s)
  {
    hide StrTail, ColonAfter;
    var a := WS(s);
    WSLocal(s, t, n);
    AgreeAt(s, t, n, a);
    AgreeFrom(s, t, n, a);
    QuotedLocal(s[a..], t[a..], n - a);
    ColonLocal(s, t, n, a + Str(s[a..]).n);
  }

  lemma MemberOfLocal(s: string, t: string, n: nat, k: KeyRead, v: Val)
    requires k.KeyRead? && k.a <= k.b <= k.d && v.Val? && k.d + v.n <= |s|
    requires MemberOf(s, k, v).MemberRead? && n == MemberOf(s, k, v).end + 1 && Agree(s, t, n)
    ensures k.d + v.n <= |t| && MemberOf(t, k, v) == MemberOf(s, k, v)
  {
    hide WS, Agree;
    var e := k.d + v.n;
    AgreeLong(s, t, n);
    AgreeFrom(s, t, n, e);
    WSLocal(s[e..], t[e..], n - e);
    AgreeAt(s, t, n, n - 1);
    MemberTexts(s, t, n, k.a, k.b, k.d, e, n - 1);
  }

  lemma {:induction false} ObjectLocal(s: string, t: string, depth: nat)
    requires |s| > 0 && Object(s, depth).Members? && depth <= MAX_NESTING && Agree(s, t, Object(s, depth).n)
    ensures |t| > 0 && Object(t, depth) == Object(s, depth)
    decreases |s|, 1
  {
    hide Value, Object, Array, MemberList, OneMember, ElementList;
    var n := Object(s, depth).n;
    AgreeFrom(s, t, n, 1);
    ObjectOpens(s, depth);
    ObjectOpens(t, depth);
    var w := WS(s[1..]);
    if 1 + w < |s| && s[1 + w] == '}' {
      WSLocal(s[1..], t[1..], n - 1);
      AgreeAt(s, t, n, 1 + w);
    } else {
      MemberListLocal(s[1..], t[1..], depth, {});
      assert t[1..][w] == t[1 + w];
    }
  }

  lemma {:induction false} OneMemberLocal(s: string, t: string, depth: nat)
    requires OneMember(s, depth).MemberRead? && Agree(s, t, OneMember(s, depth).end + 1)
    ensures OneMember(t, depth) == OneMember(s, depth)
    ensures WS(t) == WS(s) && WS(t) < |t| && t[WS(t)] == '"'
    decreases |s|, 1
  {
    hide Value, Object, Array, MemberList, OneMember, ElementList;
    hide StrTail, ColonAfter;
    var n := OneMember(s, depth).end + 1;
    MemberOpens(s, depth);
    MemberOpens(t, depth);
    var k := KeyOf(s);
    var v := Value(s[k.d..], depth);
    KeyLocal(s, t, n);
    MemberValueLocal(s, t, depth, n, k.d, v);
    MemberOfLocal(s, t, n, k, v);
  }

  lemma {:induction false} MemberValueLocal(s: string, t: string, depth: nat, n: nat, d: nat, v: Val)
    requires 0 < d <= |s| && v == Value(s[d..], depth) && v.Val? && Agree(s, t, n) && d + v.n < n
    requires d + v.n + WS(s[d + v.n..]) == n - 1 && (s[n - 1] == ',' || s[n - 1] == '}')
    ensures Value(t[d..], depth) == v
    decreases |s|, 0
  {
    hide Value, Object, Array, MemberList, OneMember, ElementList;
    var e := d + v.n;
    AgreeFrom(s, t, n, d);
    AgreeLess(s[d..], t[d..], n - d, v.n);
    AgreeAt(s, t, n, e);
    assert t[d..][v.n] == t[e];
    AfterIsDelim(s, e, n - 1);
    ValueLocal(s[d..], t[d..], depth);
  }

  lemma AfterIsDelim(s: string, e: nat, g: nat)
    requires e <= g < |s| && e + WS(s[e..]) == g && (s[g] == ',' || s[g] == '}' || s[g] == ']')
    ensures Delim(s[e])
  {
    if e < g {
      assert s[e..][0] == s[e] && s[e..][..WS(s[e..])][0] == s[e];
    }
  }

  lemma MemberTexts(s: string, t: string, n: nat, a: nat, b: nat, d: nat, e: nat, g: nat)
    requires Agree(s, t, n) && a <= b <= d <= e <= g <= n
    ensures s[..a] == t[..a] && s[a..b] == t[a..b] && s[b..d] == t[b..d] && s[d..e] == t[d..e] && s[e..g] == t[e..g]
  {
    AgreeLess(s, t, n, a);
    AgreeLess(s, t, n, b);
    AgreeFrom(s, t, b, a);
    AgreeLess(s, t, n, d);
    AgreeFrom(s, t, d, b);
    AgreeLess(s, t, n, e);
    AgreeFrom(s, t, e, d);
    AgreeLess(s, t, n, g);
    AgreeFrom(s, t, g, e);
  }

  lemma {:induction false} MemberListLocal(s: string, t: string, depth: nat, seen: set<string>)
    requires MemberList(s, depth, seen).Members? && Agree(s, t, MemberList(s, depth, seen).n)
    ensures MemberList(t, depth, seen) == MemberList(s, depth, seen)
    ensures WS(t) == WS(s) && WS(t) < |t| && t[WS(t)] == '"'
    decreases |s|, 2
  {
    hide Value, Object, Array, MemberList, OneMember, ElementList;
    var n := MemberList(s, depth, seen).n;
    var one := OneMember(s, depth);
    ListOpens(s, depth, seen);
    ListOpens(t, depth, seen);
    AgreeLess(s, t, n, one.end + 1);
    OneMemberLocal(s, t, depth);
    AgreeAt(s, t, n, one.end);
    if s[one.end] == ',' {
      AgreeFrom(s, t, n, one.end + 1);
      MemberListLocal(s[one.end + 1..], t[one.end + 1..], depth, seen + {one.piece.name});
    }
  }

  lemma {:induction false} ArrayLocal(s: string, t: string, depth: nat)
    requires |s| > 0 && Array(s, depth).Elements? && depth <= MAX_NESTING && Agree(s, t, Array(s, depth).n)
    ensures |t| > 0 && Array(t, depth) == Array(s, depth)
    decreases |s|, 1
  {
    hide Value, Object, Array, MemberList, OneMember, ElementList;
    var n := Array(s, depth).n;
    AgreeFrom(s, t, n, 1);
    ArrayOpens(s, depth);
    ArrayOpens(t, depth);
    var w := WS(s[1..]);
    if 1 + w < |s| && s[1 + w] == ']' {
      WSLocal(s[1..], t[1..], n - 1);
      AgreeAt(s, t, n, 1 + w);
    } else {
      ElementListLocal(s[1..], t[1..], depth);
      assert s[1..][w] == s[1 + w] && t[1..][w] == t[1 + w];
    }
  }

  lemma {:induction false} ElementListLocal(s: string, t: string, depth: nat)
    requires ElementList(s, depth).Elements? && Agree(s, t, ElementList(s, depth).n)
    ensures ElementList(t, depth) == ElementList(s, depth)
    ensures WS(t) == WS(s) && WS(s) < |s| && WS(t) < |t| && t[WS(t)] == s[WS(s)]
    decreases |s|, 4
  {
    hide Value, Object, Array, MemberList, OneMember, ElementList;
    hide WS, AfterElement, Agree;
    var n := ElementList(s, depth).n;
    ElementsOpen(s, depth);
    ElementsOpen(t, depth);
    var a := WS(s);
    var v := Value(s[a..], depth);
    var g := AfterElement(s, a + v.n).n;
    WSLocal(s, t, n);
    AgreeAt(s, t, n, a);
    ElementLocal(s, t, depth, n, a, v);
    AgreeAt(s, t, n, g);
    if s[g] == ',' {
      AgreeFrom(s, t, n, g + 1);
      ElementListLocal(s[g + 1..], t[g + 1..], depth);
    }
  }

  lemma {:induction false} ElementLocal(s: string, t: string, depth: nat, n: nat, a: nat, v: Val)
    requires Agree(s, t, n) && a <= |s| && v == Value(s[a..], depth) && v.Val? && AfterElement(s, a + v.n).Span?
    requires AfterElement(s, a + v.n).n < n
    ensures Value(t[a..], depth) == v && AfterElement(t, a + v.n) == AfterElement(s, a + v.n)
    decreases |s|, 3
  {
    hide Value, Object, Array, MemberList, OneMember, ElementList;
    var e, g := a + v.n, AfterElement(s, a + v.n).n;
    AgreeFrom(s, t, n, a);
    AgreeLess(s[a..], t[a..], n - a, v.n);
    AgreeFrom(s, t, n, e);
    WSLocal(s[e..], t[e..], n - e);
    AgreeAt(s, t, n, e);
    AgreeAt(s, t, n, g);
    AfterIsDelim(s, e, g);
    assert t[a..][v.n] == t[e];
    ValueLocal(s[a..], t[a..], depth);
  }
}
