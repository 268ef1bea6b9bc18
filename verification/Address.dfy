/**
The canonical text of an address: dotted for IPv4, and for IPv6 the form of section 4.2 of RFC
5952, with the leftmost longest run of two or more zero groups shortened. Reading a canonical
text gives the address back, so no two addresses share one.
*/
module Address {
  import opened Rtnl
  import opened Numerals

  predicate IsGroups(g: seq<nat>) {
    |g| == 8 && AllGroups(g)
  }

  predicate AllGroups(g: seq<nat>) {
    forall i :: 0 <= i < |g| ==> g[i] < 0x10000
  }

  // ---- the run that is shortened ----

  predicate Zeros(g: seq<nat>, a: nat, b: nat)
    requires a <= b <= |g|
  {
    forall i :: a <= i < b ==> g[i] == 0
  }

  function ZeroRun(g: seq<nat>, i: nat): (n: nat)
    requires i <= |g|
    ensures i + n <= |g| && Zeros(g, i, i + n) && (i + n < |g| ==> g[i + n] != 0)
    decreases |g| - i
  {
    if i == |g| || g[i] != 0 then 0 else 1 + ZeroRun(g, i + 1)
  }

  /** A run of zero groups: where it starts, and its length. */
  datatype Run = Run(at: nat, len: nat)

  function Scan(g: seq<nat>, i: nat, best: Run): Run
    requires i <= |g|
    decreases |g| - i
  {
    if i == |g| then best
    else if g[i] != 0 then Scan(g, i + 1, best)
    else
      var n := ZeroRun(g, i);
      Scan(g, i + n, if n > best.len then Run(i, n) else best)
  }

  /** The run is as long as any that starts before i, and the leftmost of its length. */
  predicate BestBefore(g: seq<nat>, i: nat, best: Run)
    requires i <= |g|
  {
    && best.at + best.len <= |g| && Zeros(g, best.at, best.at + best.len)
    && forall a, b :: 0 <= a <= b <= |g| && a < i && Zeros(g, a, b) ==>
         b - a <= best.len && (b - a == best.len && a < b ==> best.at <= a)
  }

  lemma BestStep(g: seq<nat>, i: nat, best: Run)
    requires i < |g| && BestBefore(g, i, best) && best.at <= i
    ensures g[i] != 0 ==> BestBefore(g, i + 1, best)
    ensures var n := ZeroRun(g, i); BestBefore(g, i + n, if n > best.len then Run(i, n) else best)
  {
    var n := ZeroRun(g, i);
    forall a, b | 0 <= a <= b <= |g| && i <= a <= i + n && Zeros(g, a, b)
      ensures b <= i + n || a == b
    {
    }
  }

  lemma {:induction false} ScanIsBest(g: seq<nat>, i: nat, best: Run)
    requires i <= |g| && BestBefore(g, i, best) && best.at <= i
    ensures BestBefore(g, |g|, Scan(g, i, best))
    decreases |g| - i
  {
    if i < |g| {
      BestStep(g, i, best);
      if g[i] != 0 {
        ScanIsBest(g, i + 1, best);
      } else {
        var n := ZeroRun(g, i);
        ScanIsBest(g, i + n, if n > best.len then Run(i, n) else best);
      }
    }
  }

  function Best(g: seq<nat>): Run {
    Scan(g, 0, Run(0, 0))
  }

  /** The run found is the longest, and the leftmost of its length. */
  lemma BestIsLeftmostLongest(g: seq<nat>)
    ensures var r := Best(g);
            && r.at + r.len <= |g| && Zeros(g, r.at, r.at + r.len)
            && forall a, b :: 0 <= a <= b <= |g| && Zeros(g, a, b) ==>
                 b - a <= r.len && (b - a == r.len && a < b ==> r.at <= a)
  {
    ScanIsBest(g, 0, Run(0, 0));
    var r := Best(g);
    forall a, b | 0 <= a <= b <= |g| && Zeros(g, a, b)
      ensures b - a <= r.len && (b - a == r.len && a < b ==> r.at <= a)
    {
      if a == |g| {
        assert a == b;
      }
    }
  }

  // ---- the text ----

  function Tokens(g: seq<nat>): (r: seq<string>)
    ensures |r| == |g|
  {
    seq(|g|, i requires 0 <= i < |g| => Num(g[i], 16))
  }

  function Groups(g: seq<nat>): string {
    Join(Tokens(g), ':')
  }

  function Canonical6(g: seq<nat>): string {
    var r := Best(g);
    if r.len < 2 || r.at + r.len > |g| then Groups(g)
    else Groups(g[..r.at]) + "::" + Groups(g[r.at + r.len..])
  }

  // ---- reading it ----

  predicate IsGroupText(t: string) {
    0 < |t| <= 4 && AllDigits(t, 16)
  }

  function ReadTokens(list: seq<string>): Opt<seq<nat>> {
    if |list| == 0 then Some([])
    else if !IsGroupText(list[0]) then None
    else
      match ReadTokens(list[1..])
      case None => None
      case Some(rest) => Some([Val(list[0], 16)] + rest)
  }

  function ReadGroups(s: string): Opt<seq<nat>> {
    if s == "" then Some([]) else ReadTokens(Split(s, ':'))
  }

  /** Where two colons first stand side by side, or the length. */
  function FindDouble(s: string): (k: nat)
    ensures k <= |s| && (k < |s| ==> k + 2 <= |s| && s[k] == ':' && s[k + 1] == ':')
  {
    if |s| < 2 then |s|
    else if s[0] == ':' && s[1] == ':' then 0
    else 1 + FindDouble(s[1..])
  }

  function Fill(n: nat): seq<nat> {
    seq(n, _ => 0)
  }

  function Parse6(s: string): Opt<seq<nat>> {
    var k := FindDouble(s);
    if k == |s| then
      match ReadGroups(s)
      case None => None
      case Some(g) => if |g| == 8 then Some(g) else None
    else
      match ReadGroups(s[..k])
      case None => None
      case Some(left) =>
        match ReadGroups(s[k + 2..])
        case None => None
        case Some(right) =>
          if |left| + |right| > 7 then None else Some(left + Fill(8 - |left| - |right|) + right)
  }

  // ---- the round trip ----

  lemma TokenRead(n: nat)
    requires n < 0x10000
    ensures IsGroupText(Num(n, 16)) && Val(Num(n, 16), 16) == n && Free(Num(n, 16), ':')
  {
    NumVal(n, 16);
    assert Power(16, 1) == 16 && Power(16, 2) == 256 && Power(16, 3) == 4096 && Power(16, 4) == 0x10000;
    NumLength(n, 16, 4);
  }

  lemma {:induction false} TokensRead(g: seq<nat>)
    requires AllGroups(g)
    ensures ReadTokens(Tokens(g)) == Some(g) && AllFree(Tokens(g), ':')
  {
    if |g| > 0 {
      assert g[0] in g;
      TokenRead(g[0]);
      assert Tokens(g)[1..] == Tokens(g[1..]);
      TokensRead(g[1..]);
      assert g == [g[0]] + g[1..];
      forall t | t in Tokens(g)
        ensures Free(t, ':')
      {
        assert t == Tokens(g)[0] || t in Tokens(g)[1..];
      }
    } else {
      assert g == [];
    }
  }

  /** Text of groups: its first and last characters are digits, and no two colons meet. */
  lemma {:induction false} GroupsShape(g: seq<nat>)
    requires AllGroups(g) && |g| > 0
    ensures var s := Groups(g); |s| > 0 && s[0] != ':' && s[|s| - 1] != ':' && FindDouble(s) == |s|
  {
    hide Num, Val, IsGroupText;
    TokenRead(g[0]);
    var t := Num(g[0], 16);
    assert Tokens(g)[0] == t;
    if |g| == 1 {
      NoDouble(t, "");
      assert t + "" == t;
    } else {
      GroupsShape(g[1..]);
      assert Tokens(g)[1..] == Tokens(g[1..]);
      var rest := Groups(g[1..]);
      assert Groups(g) == t + [':'] + rest;
      assert t + [':'] + rest == t + ([':'] + rest);
      ColonThen(rest);
      NoDouble(t, [':'] + rest);
    }
  }

  lemma ColonThen(rest: string)
    requires |rest| > 0 && rest[0] != ':' && FindDouble(rest) == |rest|
    ensures FindDouble([':'] + rest) == 1 + |rest|
  {
    assert ([':'] + rest)[1..] == rest;
  }

  /** Text without colons in front moves the first double colon by its length. */
  lemma {:induction false} NoDouble(t: string, rest: string)
    requires Free(t, ':')
    ensures FindDouble(t + rest) == |t| + FindDouble(rest)
  {
    if |t| == 0 {
      assert t + rest == rest;
    } else {
      assert (t + rest)[1..] == t[1..] + rest;
      NoDouble(t[1..], rest);
    }
  }

  lemma ReadBack(g: seq<nat>)
    requires AllGroups(g)
    ensures ReadGroups(Groups(g)) == Some(g)
  {
    TokensRead(g);
    if |g| > 0 {
      GroupsShape(g);
      SplitJoin(Tokens(g), ':');
    } else {
      assert g == [];
    }
  }

  /** A text with no double colon that does not end in one, then two: they are found there. */
  lemma {:induction false} DoubleAfter(s: string, rest: string)
    requires FindDouble(s) == |s| && (|s| > 0 ==> s[|s| - 1] != ':')
    ensures FindDouble(s + "::" + rest) == |s|
  {
    if |s| > 0 {
      assert (s + "::" + rest)[1..] == s[1..] + "::" + rest;
      DoubleAfter(s[1..], rest);
    }
  }

  lemma ParseDouble(s: string, k: nat, left: seq<nat>, right: seq<nat>)
    requires FindDouble(s) == k < |s| && ReadGroups(s[..k]) == Some(left) && ReadGroups(s[k + 2..]) == Some(right)
    requires |left| + |right| <= 7
    ensures Parse6(s) == Some(left + Fill(8 - |left| - |right|) + right)
  {
    hide FindDouble, ReadGroups, Fill;
  }

  lemma ShortenedRead(left: seq<nat>, right: seq<nat>)
    requires AllGroups(left) && AllGroups(right) && |left| + |right| <= 6
    ensures Parse6(Groups(left) + "::" + Groups(right)) == Some(left + Fill(8 - |left| - |right|) + right)
  {
    var a, b := Groups(left), Groups(right);
    if |left| > 0 {
      GroupsShape(left);
    }
    DoubleAfter(a, b);
    ReadBack(left);
    ReadBack(right);
    hide Groups, FindDouble, ReadGroups, Fill, Parse6;
    assert (a + "::" + b)[..|a|] == a && (a + "::" + b)[|a| + 2..] == b;
    ParseDouble(a + "::" + b, |a|, left, right);
  }

  /** Reading the canonical text of an address gives the address. */
  lemma RoundTrip6(g: seq<nat>)
    requires IsGroups(g)
    ensures Parse6(Canonical6(g)) == Some(g)
  {
    BestIsLeftmostLongest(g);
    var r := Best(g);
    if r.len < 2 {
      GroupsShape(g);
      ReadBack(g);
    } else {
      var left, right := g[..r.at], g[r.at + r.len..];
      ShortenedRead(left, right);
      assert g == left + Fill(r.len) + right;
    }
  }

  /** No two addresses have the same text. */
  lemma Canonical6Injective(a: seq<nat>, b: seq<nat>)
    requires IsGroups(a) && IsGroups(b) && Canonical6(a) == Canonical6(b)
    ensures a == b
  {
    RoundTrip6(a);
    RoundTrip6(b);
  }

  // ---- the text as the code builds it ----

  lemma {:induction false} JoinSnoc(list: seq<string>, t: string, sep: char)
    ensures Join(list + [t], sep) == if |list| == 0 then t else Join(list, sep) + [sep] + t
  {
    if |list| == 0 {
      assert list + [t] == [t];
    } else {
      assert (list + [t])[1..] == list[1..] + [t];
      JoinSnoc(list[1..], t, sep);
      if |list| == 1 {
        assert list == [list[0]];
      } else {
        var rest := Join(list[1..], sep);
        assert list[0] + [sep] + (rest + [sep] + t) == (list[0] + [sep] + rest) + [sep] + t;
      }
    }
  }

  lemma GroupsSnoc(h: seq<nat>, n: nat)
    ensures Groups(h + [n]) == (if |h| == 0 then "" else Groups(h) + ":") + Num(n, 16)
  {
    assert Tokens(h + [n]) == Tokens(h) + [Num(n, 16)];
    JoinSnoc(Tokens(h), Num(n, 16), ':');
  }

  /** One more group at the end of the text: after a colon of its own unless one is there. */
  function Put(text: string, n: nat): string {
    (if |text| > 0 && text[|text| - 1] != ':' then text + ":" else text) + Num(n, 16)
  }

  lemma PutGroup(h: seq<nat>, n: nat)
    requires AllGroups(h)
    ensures Put(Groups(h), n) == Groups(h + [n])
  {
    GroupsSnoc(h, n);
    if |h| > 0 {
      GroupsShape(h);
    } else {
      assert h == [] && Groups(h) == "";
    }
  }

  lemma PutAfter(left: string, h: seq<nat>, n: nat)
    requires AllGroups(h)
    ensures Put(left + "::" + Groups(h), n) == left + "::" + Groups(h + [n])
  {
    GroupsSnoc(h, n);
    var text := left + "::" + Groups(h);
    if |h| > 0 {
      GroupsShape(h);
      assert text[|text| - 1] != ':';
    } else {
      assert h == [] && Groups(h) == "" && text == left + "::";
      assert text[|text| - 1] == ':';
    }
  }

  /** The scan for the run to shorten. */
  method FindRun(g: seq<nat>) returns (at: nat, len: nat)
    ensures Run(at, len) == Best(g)
  {
    at, len := 0, 0;
    var i := 0;
    while i < |g|
      invariant i <= |g| && Scan(g, i, Run(at, len)) == Best(g)
    {
      if g[i] != 0 {
        i := i + 1;
        continue;
      }
      var j := i;
      while j < |g| && g[j] == 0
        invariant i <= j <= |g| && ZeroRun(g, i) == j - i + ZeroRun(g, j)
      {
        j := j + 1;
      }
      if j - i > len {
        at, len := i, j - i;
      }
      i := j;
    }
  }

  /** The builder's loop: group after group, the run written as two colons. */
  method RunCanonical6(g: seq<nat>) returns (text: string)
    requires IsGroups(g)
    ensures text == Canonical6(g)
  {
    var at, len := FindRun(g);
    BestIsLeftmostLongest(g);
    hide Best, Groups, Put;
    text := "";
    GroupsNone();
    var short := len >= 2;
    var i := 0;
    while i < 8
      invariant i <= 8 && (short ==> i <= at || i >= at + len)
      invariant !short || i <= at ==> text == Groups(g[..i])
      invariant short && i > at ==> text == Groups(g[..at]) + "::" + Groups(g[at + len..i])
      decreases 8 - i
    {
      if short && i == at {
        text := text + "::";
        i := i + len;
        assert g[i..i] == [];
        assert text + "" == text;
      } else {
        if short && i > at {
          PutAfter(Groups(g[..at]), g[at + len..i], g[i]);
          assert g[at + len..i] + [g[i]] == g[at + len..i + 1];
        } else {
          PutGroup(g[..i], g[i]);
          assert g[..i] + [g[i]] == g[..i + 1];
        }
        text := Put(text, g[i]);
        i := i + 1;
      }
    }
    assert g[..8] == g && (short ==> g[at + len..8] == g[at + len..]);
  }

  lemma GroupsNone()
    ensures Groups([]) == ""
  {
  }

  // ---- IPv4 ----

  predicate IsBytes(b: seq<nat>) {
    |b| == 4 && forall i :: 0 <= i < 4 ==> b[i] < 256
  }

  function Canonical4(b: seq<nat>): string
    requires |b| == 4
  {
    Join([Num(b[0], 10), Num(b[1], 10), Num(b[2], 10), Num(b[3], 10)], '.')
  }

  predicate IsByteText(t: string) {
    0 < |t| <= 3 && AllDigits(t, 10) && NoLeadingZero(t) && Val(t, 10) < 256
  }

  function Parse4(s: string): Opt<seq<nat>> {
    var p := Split(s, '.');
    if |p| == 4 && IsByteText(p[0]) && IsByteText(p[1]) && IsByteText(p[2]) && IsByteText(p[3])
    then Some([Val(p[0], 10), Val(p[1], 10), Val(p[2], 10), Val(p[3], 10)]) else None
  }

  lemma ByteRead(n: nat)
    requires n < 256
    ensures IsByteText(Num(n, 10)) && Val(Num(n, 10), 10) == n && Free(Num(n, 10), '.')
  {
    NumVal(n, 10);
    NumLeads(n, 10);
    assert Power(10, 1) == 10 && Power(10, 2) == 100 && Power(10, 3) == 1000;
    NumLength(n, 10, 3);
  }

  lemma RoundTrip4(b: seq<nat>)
    requires IsBytes(b)
    ensures Parse4(Canonical4(b)) == Some(b)
  {
    var list := [Num(b[0], 10), Num(b[1], 10), Num(b[2], 10), Num(b[3], 10)];
    ByteRead(b[0]);
    ByteRead(b[1]);
    ByteRead(b[2]);
    ByteRead(b[3]);
    hide Num, Val, IsByteText, Free;
    SplitJoin(list, '.');
    assert b == [b[0], b[1], b[2], b[3]];
  }
}
