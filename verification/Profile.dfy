/**
A profile as one JSON object: its root members as pieces of its text. Reading the text gives
the pieces, and the pieces put together are read back as themselves.
*/
module Profile {
  import opened Json
  import opened JsonLocal

  // ---- whole pieces ----

  /** Whitespace, a colon, whitespace. */
  predicate IsColon(c: string) {
    WS(c) < |c| && c[WS(c)] == ':' && AllWS(c[WS(c) + 1..])
  }

  function PieceText(p: Piece): string {
    p.lead + (p.key + (p.colon + (p.val + p.trail)))
  }

  /** A member's pieces are what its text is made of, and decode to what it says. */
  predicate WellFormed(p: Piece, depth: nat) {
    && AllWS(p.lead) && AllWS(p.trail) && IsColon(p.colon)
    && |p.key| > 0 && p.key[0] == '"' && Str(p.key) == Text(|p.key|, p.name, p.plain)
    && Value(p.val, depth) == Val(|p.val|, p.kind, p.str, p.strPlain, p.dup)
  }

  // ---- reading whitespace, strings and colons off a text ----

  lemma {:induction false} WSExact(w: string, rest: string)
    requires AllWS(w) && (|rest| > 0 ==> !IsWS(rest[0]))
    ensures WS(w + rest) == |w|
  {
    if |w| == 0 {
      assert w + rest == rest;
    } else {
      assert w[0] in w;
      assert (w + rest)[1..] == w[1..] + rest;
      WSExact(w[1..], rest);
    }
  }

  lemma StrExact(key: string, rest: string)
    requires |key| > 0 && Str(key).Text? && Str(key).n == |key|
    ensures Str(key + rest) == Str(key)
  {
    assert (key + rest)[..|key|] == key[..|key|];
    QuotedLocal(key, key + rest, |key|);
  }

  lemma ValueExact(val: string, depth: nat, rest: string)
    requires Value(val, depth).Val? && Value(val, depth).n == |val| && (|rest| > 0 ==> Delim(rest[0]))
    ensures Value(val + rest, depth) == Value(val, depth)
  {
    assert (val + rest)[..|val|] == val[..|val|];
    ValueLocal(val, val + rest, depth);
  }

  lemma FirstOfValue(val: string, depth: nat)
    requires Value(val, depth).Val?
    ensures |val| > 0 && !IsWS(val[0])
  {
  }

  // ---- putting texts together ----

  lemma Assoc<T>(a: seq<T>, b: seq<T>, c: seq<T>)
    ensures (a + b) + c == a + (b + c)
  {
  }

  lemma DropConcat<T>(a: seq<T>, b: seq<T>)
    ensures (a + b)[|a|..] == b && (a + b)[..|a|] == a
  {
  }

  lemma Sub<T>(s: seq<T>, a: nat, e: nat)
    requires a <= e <= |s|
    ensures s[a..][..e - a] == s[a..e] && s[a..e][..e - a] == s[a..e]
  {
  }

  lemma Mid<T>(a: seq<T>, b: seq<T>, c: seq<T>)
    ensures (a + (b + c))[|a|..|a| + |b|] == b
  {
  }

  /** Five texts and a rest, grouped at each seam. */
  lemma Five<T>(a: seq<T>, b: seq<T>, c: seq<T>, d: seq<T>, e: seq<T>, r: seq<T>)
    ensures (a + (b + (c + (d + e)))) + r == a + (b + (c + (d + (e + r))))
    ensures a + (b + (c + (d + (e + r)))) == (a + b) + (c + (d + (e + r)))
    ensures a + (b + (c + (d + (e + r)))) == (a + b + c) + (d + (e + r))
    ensures a + (b + (c + (d + (e + r)))) == (a + b + c + d) + (e + r)
  {
    Assoc(d, e, r);
    Assoc(c, d + e, r);
    Assoc(b, c + (d + e), r);
    Assoc(a, b + (c + (d + e)), r);
    Assoc(a, b, c + (d + (e + r)));
    Assoc(a + b, c, d + (e + r));
    Assoc(a + b + c, d, e + r);
  }

  lemma ColonParts(colon: string, rest: string)
    requires IsColon(colon)
    ensures var w := WS(colon); colon + rest == colon[..w] + ([':'] + (colon[w + 1..] + rest))
  {
    var w := WS(colon);
    assert colon == colon[..w] + ([':'] + colon[w + 1..]);
    Assoc(colon[..w], [':'] + colon[w + 1..], rest);
    Assoc([':'], colon[w + 1..], rest);
  }

  lemma ColonExact(before: string, colon: string, rest: string)
    requires IsColon(colon) && |rest| > 0 && !IsWS(rest[0])
    ensures ColonAfter(before + (colon + rest), |before|) == Span(|before| + |colon|)
  {
    hide WS;
    var w := WS(colon);
    ColonParts(colon, rest);
    ColonFound(before, colon[..w], colon[w + 1..], rest);
  }

  lemma ColonFound(before: string, w: string, v: string, rest: string)
    requires AllWS(w) && AllWS(v) && |rest| > 0 && !IsWS(rest[0])
    ensures ColonAfter(before + (w + ([':'] + (v + rest))), |before|) == Span(|before| + |w| + 1 + |v|)
  {
    hide WS, AllWS;
    var s := before + (w + ([':'] + (v + rest)));
    DropConcat(before, w + ([':'] + (v + rest)));
    WSExact(w, [':'] + (v + rest));
    Assoc(before, w, [':'] + (v + rest));
    Assoc(before + w, [':'], v + rest);
    DropConcat(before + w + [':'], v + rest);
    WSExact(v, rest);
    assert s[|before| + |w|] == ':';
  }

  // ---- one member ----

  lemma KeyExact(p: Piece, depth: nat, rest: string)
    requires WellFormed(p, depth) && |rest| > 0 && !IsWS(rest[0])
    ensures KeyOf(p.lead + (p.key + (p.colon + rest))) ==
            KeyRead(|p.lead|, |p.lead| + |p.key|, |p.lead| + |p.key| + |p.colon|, Text(|p.key|, p.name, p.plain))
  {
    hide Value, StrTail, ColonAfter, WS, IsColon, Str;
    var s := p.lead + (p.key + (p.colon + rest));
    WSExact(p.lead, p.key + (p.colon + rest));
    DropConcat(p.lead, p.key + (p.colon + rest));
    StrExact(p.key, p.colon + rest);
    Assoc(p.lead, p.key, p.colon + rest);
    ColonExact(p.lead + p.key, p.colon, rest);
    assert s[|p.lead|] == p.key[0];
  }

  lemma TrailDelim(trail: string, rest: string)
    requires AllWS(trail) && |rest| > 0 && Delim(rest[0])
    ensures Delim((trail + rest)[0])
  {
    if |trail| > 0 {
      assert trail[0] in trail;
    }
  }

  lemma MemberOfFrom(s: string, p: Piece, k: KeyRead, v: Val, g: nat)
    requires k.KeyRead? && k.a <= k.b <= k.d && v.Val? && k.d + v.n <= g < |s| && (s[g] == ',' || s[g] == '}')
    requires WS(s[k.d + v.n..]) == g - (k.d + v.n)
    requires k.key == Text(|p.key|, p.name, p.plain) && v == Val(|p.val|, p.kind, p.str, p.strPlain, p.dup)
    requires s[..k.a] == p.lead && s[k.a..k.b] == p.key && s[k.b..k.d] == p.colon
    requires s[k.d..k.d + v.n] == p.val && s[k.d + v.n..g] == p.trail
    ensures MemberOf(s, k, v) == MemberRead(p, g)
  {
    hide WS;
  }

  lemma TrailRead(p: Piece, rest: string, s: string)
    requires s == PieceText(p) + rest && |rest| > 0 && !IsWS(rest[0]) && AllWS(p.trail)
    ensures var e := |p.lead| + |p.key| + |p.colon| + |p.val|;
            && |PieceText(p)| == e + |p.trail| && s[|PieceText(p)|] == rest[0] && WS(s[e..]) == |p.trail|
  {
    hide WS;
    Five(p.lead, p.key, p.colon, p.val, p.trail, rest);
    DropConcat(p.lead + p.key + p.colon + p.val, p.trail + rest);
    WSExact(p.trail, rest);
  }

  lemma MemberOfExact(p: Piece, rest: string, s: string, k: KeyRead, v: Val)
    requires s == PieceText(p) + rest && |rest| > 0 && (rest[0] == ',' || rest[0] == '}') && AllWS(p.trail)
    requires k == KeyRead(|p.lead|, |p.lead| + |p.key|, |p.lead| + |p.key| + |p.colon|, Text(|p.key|, p.name, p.plain))
    requires v == Val(|p.val|, p.kind, p.str, p.strPlain, p.dup)
    ensures k.d + v.n <= |s| && MemberOf(s, k, v) == MemberRead(p, |PieceText(p)|)
  {
    hide WS, MemberOf, PieceText;
    TrailRead(p, rest, s);
    MemberSlices(p, rest, s);
    MemberOfFrom(s, p, k, v, |PieceText(p)|);
  }

  lemma MemberSlices(p: Piece, rest: string, s: string)
    requires s == PieceText(p) + rest
    ensures var b := |p.lead| + |p.key|;
            var d := b + |p.colon|;
            var e := d + |p.val|;
            && s[..|p.lead|] == p.lead && s[|p.lead|..b] == p.key && s[b..d] == p.colon && s[d..e] == p.val
            && s[e..e + |p.trail|] == p.trail
  {
    Five(p.lead, p.key, p.colon, p.val, p.trail, rest);
    DropConcat(p.lead, p.key + (p.colon + (p.val + (p.trail + rest))));
    Mid(p.lead, p.key, p.colon + (p.val + (p.trail + rest)));
    Mid(p.lead + p.key, p.colon, p.val + (p.trail + rest));
    Mid(p.lead + p.key + p.colon, p.val, p.trail + rest);
    Mid(p.lead + p.key + p.colon + p.val, p.trail, rest);
  }

  /** A well-formed piece before a comma or the closing brace is read back as itself. */
  lemma OneMemberExact(p: Piece, depth: nat, rest: string)
    requires WellFormed(p, depth) && |rest| > 0 && (rest[0] == ',' || rest[0] == '}')
    ensures OneMember(PieceText(p) + rest, depth) == MemberRead(p, |PieceText(p)|)
  {
    hide Value, Object, Array, MemberList, OneMember, ElementList, StrTail, ColonAfter, WS, IsColon, KeyOf, Str, MemberOf;
    var s := PieceText(p) + rest;
    Five(p.lead, p.key, p.colon, p.val, p.trail, rest);
    FirstOfValue(p.val, depth);
    KeyExact(p, depth, p.val + (p.trail + rest));
    DropConcat(p.lead + p.key + p.colon, p.val + (p.trail + rest));
    TrailDelim(p.trail, rest);
    ValueExact(p.val, depth, p.trail + rest);
    MemberOpens(s, depth);
    MemberOfExact(p, rest, s, KeyOf(s), Value(p.val, depth));
  }

  /** A member that is read is made of well-formed pieces. */
  lemma OneMemberSound(s: string, depth: nat)
    requires OneMember(s, depth).MemberRead?
    ensures var r := OneMember(s, depth); s[..r.end] == PieceText(r.piece) && WellFormed(r.piece, depth)
  {
    hide Value, Object, Array, MemberList, OneMember, ElementList, StrTail, WS, Str, KeyOf, IsColon;
    MemberOpens(s, depth);
    var k := KeyOf(s);
    var v := Value(s[k.d..], depth);
    var e, g := k.d + v.n, OneMember(s, depth).end;
    SliceParts(s, k.a, k.b, k.d, e, g);
    KeyAlone(s);
    ValueAlone(s, depth, k.d, v, g);
    Sub(s, e, g);
  }

  lemma SliceParts<T>(s: seq<T>, a: nat, b: nat, d: nat, e: nat, g: nat)
    requires a <= b <= d <= e <= g <= |s|
    ensures s[..g] == s[..a] + (s[a..b] + (s[b..d] + (s[d..e] + s[e..g])))
  {
    assert s[d..e] + s[e..g] == s[d..g];
    assert s[b..d] + s[d..g] == s[b..g];
    assert s[a..b] + s[b..g] == s[a..g];
  }

  /** The key of a member that is read, by itself. */
  lemma KeyAlone(s: string)
    requires KeyOf(s).KeyRead?
    ensures var k := KeyOf(s);
            var key := s[k.a..k.b];
            && AllWS(s[..k.a]) && |key| > 0 && key[0] == '"' && Str(key) == Text(|key|, k.key.text, k.key.plain)
            && IsColon(s[k.b..k.d])
  {
    hide Str, KeyOf, WS, ColonAfter, IsColon;
    KeyParts(s);
    var k := KeyOf(s);
    var key := s[k.a..k.b];
    Sub(s, k.a, k.b);
    QuotedLocal(s[k.a..], key, k.b - k.a);
    ColonAlone(s, k.b);
  }

  lemma KeyParts(s: string)
    requires KeyOf(s).KeyRead?
    ensures var k := KeyOf(s);
            && AllWS(s[..k.a]) && s[k.a] == '"' && k.key == Str(s[k.a..]) && k.key.n == k.b - k.a
            && ColonAfter(s, k.b) == Span(k.d)
  {
    hide Str, ColonAfter;
  }

  lemma ColonAlone(s: string, b: nat)
    requires b <= |s| && ColonAfter(s, b).Span?
    ensures IsColon(s[b..ColonAfter(s, b).n])
  {
    hide WS;
    var w := WS(s[b..]);
    var c, d := b + w, ColonAfter(s, b).n;
    var colon := s[b..d];
    assert colon[w] == s[c] == ':';
    assert s[b..][..w] == colon[..w];
    assert colon == colon[..w] + colon[w..];
    WSExact(colon[..w], colon[w..]);
    assert colon[w + 1..] == s[c + 1..][..d - c - 1];
  }

  lemma ValueAlone(s: string, depth: nat, d: nat, v: Val, g: nat)
    requires d <= |s| && v == Value(s[d..], depth) && v.Val? && d + v.n <= g <= |s|
    ensures Value(s[d..d + v.n], depth) == v
  {
    hide Value;
    var val := s[d..d + v.n];
    assert s[d..][..v.n] == val == val[..|val|];
    ValueLocal(s[d..], val, depth);
  }

  // ---- a list of members ----

  function JoinPieces(list: seq<Piece>): string {
    if |list| == 0 then ""
    else if |list| == 1 then PieceText(list[0])
    else PieceText(list[0]) + ([','] + JoinPieces(list[1..]))
  }

  predicate AllWellFormed(list: seq<Piece>, depth: nat) {
    forall p :: p in list ==> WellFormed(p, depth)
  }

  /** Some name is repeated, here or inside a value. */
  predicate Repeats(list: seq<Piece>, seen: set<string>) {
    |list| > 0 && (list[0].name in seen || list[0].dup || Repeats(list[1..], seen + {list[0].name}))
  }

  /** Well-formed pieces joined by commas are read back as themselves. */
  lemma {:induction false} ListExact(list: seq<Piece>, depth: nat, seen: set<string>, rest: string)
    requires |list| > 0 && AllWellFormed(list, depth)
    ensures MemberList(JoinPieces(list) + (['}'] + rest), depth, seen) ==
            Members(|JoinPieces(list)| + 1, list, Repeats(list, seen))
    decreases |list|
  {
    hide Value, Object, Array, MemberList, OneMember, ElementList, WellFormed, PieceText;
    var p := list[0];
    assert p in list;
    if |list| == 1 {
      var s := PieceText(p) + (['}'] + rest);
      OneMemberExact(p, depth, ['}'] + rest);
      ListOpens(s, depth, seen);
      assert s[|PieceText(p)|] == '}';
      assert [p] == list && list[1..] == [];
    } else {
      var after := JoinPieces(list[1..]) + (['}'] + rest);
      var s := PieceText(p) + ([','] + after);
      ListExactSplit(p, list[1..], rest);
      OneMemberExact(p, depth, [','] + after);
      ListOpens(s, depth, seen);
      assert s[|PieceText(p)|] == ',';
      Assoc(PieceText(p), [','], after);
      DropConcat(PieceText(p) + [','], after);
      assert forall x :: x in list[1..] ==> x in list;
      ListExact(list[1..], depth, seen + {p.name}, rest);
      assert [p] + list[1..] == list;
    }
  }

  lemma ListExactSplit(p: Piece, more: seq<Piece>, rest: string)
    ensures (PieceText(p) + ([','] + JoinPieces(more))) + (['}'] + rest) ==
            PieceText(p) + ([','] + (JoinPieces(more) + (['}'] + rest)))
  {
    hide PieceText, JoinPieces;
    Assoc(PieceText(p), [','] + JoinPieces(more), ['}'] + rest);
    Assoc([','], JoinPieces(more), ['}'] + rest);
  }

  /** Members that are read are well-formed pieces joined by commas. */
  lemma {:induction false} ListSound(s: string, depth: nat, seen: set<string>)
    requires MemberList(s, depth, seen).Members?
    ensures var m := MemberList(s, depth, seen);
            && |m.list| > 0 && AllWellFormed(m.list, depth) && m.dup == Repeats(m.list, seen)
            && s[..m.n] == JoinPieces(m.list) + ['}']
    decreases |s|
  {
    hide Value, Object, Array, MemberList, OneMember, ElementList, WellFormed, PieceText;
    var one := OneMember(s, depth);
    ListOpens(s, depth, seen);
    OneMemberSound(s, depth);
    var m := MemberList(s, depth, seen);
    if s[one.end] == '}' {
      assert s[..one.end + 1] == s[..one.end] + ['}'];
      assert m.list[1..] == [];
    } else {
      var rest := s[one.end + 1..];
      var r := MemberList(rest, depth, seen + {one.piece.name});
      ListSound(rest, depth, seen + {one.piece.name});
      assert m.list[1..] == r.list;
      assert s[..m.n] == s[..one.end] + ([','] + rest[..r.n]);
      Assoc([','], JoinPieces(r.list), ['}']);
      Assoc(PieceText(one.piece), [','] + JoinPieces(r.list), ['}']);
    }
  }

  // ---- clean bytes ----

  predicate Cont(c: char) { 0x80 <= c as int <= 0xBF }

  predicate Within(c: char, lo: int, hi: int) { lo <= c as int <= hi }

  /** The length of the UTF-8 character at the front, 0 when there is none. */
  function RuneLen(s: string): (n: nat)
    requires |s| > 0
    ensures n <= |s|
  {
    var c := s[0];
    if Within(c, 0, 0x7F) then 1
    else if |s| >= 2 && Within(c, 0xC2, 0xDF) && Cont(s[1]) then 2
    else if |s| >= 3 && Cont(s[1]) && Cont(s[2]) && Within(c, 0xE0, 0xEF)
            && (c as int == 0xE0 ==> 0xA0 <= s[1] as int) && (c as int == 0xED ==> s[1] as int <= 0x9F) then 3
    else if |s| >= 4 && Cont(s[1]) && Cont(s[2]) && Cont(s[3]) && Within(c, 0xF0, 0xF4)
            && (c as int == 0xF0 ==> 0x90 <= s[1] as int) && (c as int == 0xF4 ==> s[1] as int <= 0x8F) then 4
    else 0
  }

  predicate Utf8Valid(s: string) {
    |s| > 0 ==> RuneLen(s) > 0 && Utf8Valid(s[RuneLen(s)..])
  }

  lemma {:induction false} Utf8Concat(a: string, b: string)
    requires Utf8Valid(a) && Utf8Valid(b)
    ensures Utf8Valid(a + b)
  {
    if |a| == 0 {
      assert a + b == b;
    } else {
      hide RuneLen;
      var k := RuneLen(a);
      RuneLenMore(a, b);
      assert (a + b)[k..] == a[k..] + b;
      Utf8Concat(a[k..], b);
    }
  }

  lemma RuneLenMore(a: string, b: string)
    requires |a| > 0 && RuneLen(a) > 0
    ensures RuneLen(a + b) == RuneLen(a)
  {
    hide Cont, Within;
    assert forall i :: 0 <= i < |a| ==> (a + b)[i] == a[i];
  }

  lemma RuneLenLess(a: string, b: string)
    requires |a| > 0 && 0 < RuneLen(a + b) <= |a|
    ensures RuneLen(a) == RuneLen(a + b)
  {
    hide Cont, Within;
    assert forall i :: 0 <= i < |a| ==> (a + b)[i] == a[i];
  }

  /** A character does not go on into an ASCII byte. */
  lemma RuneLenStops(a: string, b: string)
    requires |a| > 0 && RuneLen(a + b) > 0 && (|b| > 0 ==> b[0] as int < 0x80)
    ensures RuneLen(a + b) <= |a|
  {
    if |b| > 0 {
      assert (a + b)[|a|] == b[0];
    }
  }

  /** A text can be cut before an ASCII byte. */
  lemma {:induction false} Utf8Cut(a: string, b: string)
    requires Utf8Valid(a + b) && (|b| > 0 ==> b[0] as int < 0x80)
    ensures Utf8Valid(a) && Utf8Valid(b)
  {
    if |a| == 0 {
      assert a + b == b;
    } else {
      hide RuneLen;
      var k := RuneLen(a + b);
      RuneLenStops(a, b);
      RuneLenLess(a, b);
      assert (a + b)[k..] == a[k..] + b;
      Utf8Cut(a[k..], b);
    }
  }

  /** No NUL, and valid UTF-8. */
  predicate CleanText(s: string) {
    (forall c :: c in s ==> c as int != 0) && Utf8Valid(s)
  }

  predicate Ascii(s: string) {
    forall c :: c in s ==> 0 < c as int < 0x80
  }

  lemma {:induction false} AsciiClean(s: string)
    requires Ascii(s)
    ensures CleanText(s)
  {
    if |s| > 0 {
      assert s[0] in s && forall c :: c in s[1..] ==> c in s;
      AsciiClean(s[1..]);
    }
  }

  /** ASCII put in place of a text that stands before and after ASCII keeps it clean. */
  lemma SpliceClean(a: string, x: string, b: string, ins: string)
    requires CleanText(a + (x + b)) && Ascii(ins)
    requires |x + b| > 0 && (x + b)[0] as int < 0x80 && |b| > 0 && b[0] as int < 0x80
    ensures CleanText(a + (ins + b))
  {
    Utf8Cut(a, x + b);
    Utf8Cut(x, b);
    AsciiClean(ins);
    Utf8Concat(ins, b);
    Utf8Concat(a, ins + b);
    forall c | c in a + (ins + b)
      ensures c as int != 0
    {
      if c in a {
        assert c in a + (x + b);
      } else if c in b {
        assert c in x + b && c in a + (x + b);
      }
    }
  }

  // ---- the root ----

  /** A profile that is one object: the whitespace around it, its members, or the whitespace
      inside it when it has none, and whether a key is repeated at any depth. */
  datatype Scanned = Malformed | Root(before: string, pad: string, list: seq<Piece>, after: string, dup: bool)

  function Body(r: Scanned): string
    requires r.Root?
  {
    if |r.list| == 0 then r.pad else JoinPieces(r.list)
  }

  function RootText(r: Scanned): string
    requires r.Root?
  {
    r.before + (['{'] + (Body(r) + (['}'] + r.after)))
  }

  predicate WellFormedRoot(r: Scanned)
    requires r.Root?
  {
    && AllWS(r.before) && AllWS(r.pad) && AllWS(r.after) && AllWellFormed(r.list, 1)
    && (|r.list| > 0 ==> r.pad == "") && r.dup == Repeats(r.list, {})
  }

  /** Validates a text as one JSON object. */
  function Scan(data: string): Scanned {
    var a := WS(data);
    if !CleanText(data) || a >= |data| || data[a] != '{' then Malformed
    else
      match Object(data[a..], 1)
      case BadMembers => Malformed
      case Members(n, list, dup) =>
        if !AllWS(data[a + n..]) then Malformed
        else Root(data[..a], if |list| == 0 then data[a + 1..a + n - 1] else "", list, data[a + n..], dup)
  }

  lemma ObjectExact(r: Scanned)
    requires r.Root? && WellFormedRoot(r)
    ensures Object(['{'] + (Body(r) + (['}'] + r.after)), 1) == Members(|Body(r)| + 2, r.list, r.dup)
  {
    hide Value, Object, Array, MemberList, OneMember, ElementList, WS, WellFormed, JoinPieces;
    var inner := Body(r) + (['}'] + r.after);
    var s := ['{'] + inner;
    assert s[1..] == inner;
    ObjectOpens(s, 1);
    if |r.list| == 0 {
      WSExact(r.pad, ['}'] + r.after);
      assert inner[|r.pad|] == '}';
    } else {
      ListExact(r.list, 1, {}, r.after);
      FirstIsQuote(inner, 1, {});
    }
  }

  lemma FirstIsQuote(s: string, depth: nat, seen: set<string>)
    requires MemberList(s, depth, seen).Members?
    ensures WS(s) < |s| && s[WS(s)] == '"'
  {
    hide Value, Object, Array, ElementList, WS, MemberOf, Str, ColonAfter;
    ListOpens(s, depth, seen);
    MemberOpens(s, depth);
  }

  /** A well-formed root is read back as itself. */
  lemma ScanExact(r: Scanned)
    requires r.Root? && WellFormedRoot(r) && CleanText(RootText(r))
    ensures Scan(RootText(r)) == r
  {
    hide Object, WS, WellFormed, JoinPieces, CleanText, AllWS;
    var body := Body(r);
    var inner := ['{'] + (body + (['}'] + r.after));
    var data := RootText(r);
    WSExact(r.before, inner);
    DropConcat(r.before, inner);
    ObjectExact(r);
    RootSlices(r.before, body, r.after);
  }

  lemma RootSlices(before: string, body: string, after: string)
    ensures var data := before + (['{'] + (body + (['}'] + after)));
            var a := |before|;
            && data[a] == '{' && data[a + 1..a + 1 + |body|] == body
            && data[a + |body| + 2..] == after
  {
    Assoc(before, ['{'], body + (['}'] + after));
    Mid(before + ['{'], body, ['}'] + after);
    Assoc(before + ['{'], body, ['}'] + after);
    Assoc(before + ['{'] + body, ['}'], after);
    DropConcat(before + ['{'] + body + ['}'], after);
  }

  /** What an object holds, with its brace first: its body and the closing brace. */
  lemma ObjectSound(s: string)
    requires |s| > 0 && s[0] == '{' && Object(s, 1).Members?
    ensures var m := Object(s, 1);
            && AllWellFormed(m.list, 1) && m.dup == Repeats(m.list, {})
            && s[m.n - 1] == '}' && s[..m.n] == ['{'] + (s[1..m.n - 1] + ['}'])
            && s[1..m.n - 1] == (if |m.list| == 0 then s[1..m.n - 1] else JoinPieces(m.list))
            && (|m.list| == 0 ==> AllWS(s[1..m.n - 1]))
  {
    hide Value, Object, Array, MemberList, OneMember, ElementList, WS, WellFormed, JoinPieces;
    ObjectOpens(s, 1);
    var m, w := Object(s, 1), WS(s[1..]);
    if 1 + w < |s| && s[1 + w] == '}' {
      assert s[1..][..w] == s[1..m.n - 1];
    } else {
      var list := MemberList(s[1..], 1, {});
      ListSound(s[1..], 1, {});
      var text := JoinPieces(list.list);
      assert s[1..m.n] == s[1..][..list.n] == text + ['}'];
      assert (text + ['}'])[..|text|] == text;
      assert s[1..m.n - 1] == s[1..m.n][..|text|];
      assert s[m.n - 1] == s[1..m.n][|text|];
    }
    assert s[..m.n] == ['{'] + s[1..m.n];
    assert s[1..m.n] == s[1..m.n - 1] + ['}'];
  }

  lemma RootParts(data: string, a: nat, n: nat, body: string)
    requires a + n <= |data| && data[a..][..n] == ['{'] + (body + ['}'])
    ensures data == data[..a] + (['{'] + (body + (['}'] + data[a + n..])))
  {
    var s := data[a..];
    assert s == s[..n] + s[n..] && s[n..] == data[a + n..];
    Assoc(['{'], body + ['}'], data[a + n..]);
    Assoc(body, ['}'], data[a + n..]);
    assert data == data[..a] + s;
  }

  lemma ScanParts(data: string)
    requires Scan(data).Root?
    ensures var r := Scan(data);
            var a := WS(data);
            var s := data[a..];
            && a < |data| && data[a] == '{' && Object(s, 1).Members? && CleanText(data)
            && r.list == Object(s, 1).list && r.dup == Object(s, 1).dup && r.before == data[..a]
            && r.after == s[Object(s, 1).n..] == data[a + Object(s, 1).n..] && AllWS(r.after)
            && r.pad == if |r.list| == 0 then s[1..Object(s, 1).n - 1] else ""
  {
    hide Object, WS, CleanText;
    var a := WS(data);
    var n := Object(data[a..], 1).n;
    assert data[a..][n..] == data[a + n..];
    assert data[a..][1..n - 1] == data[a + 1..a + n - 1];
  }

  /** A text that is accepted is the text of its pieces. */
  lemma ScanSound(data: string)
    requires Scan(data).Root?
    ensures RootText(Scan(data)) == data && WellFormedRoot(Scan(data)) && CleanText(data)
  {
    hide Object, WS, WellFormed, JoinPieces, CleanText, Scan, Repeats, WellFormedRoot, Body, AllWS;
    ScanForm(data);
    ScanParts(data);
    ScanBody(data);
    RootParts(data, WS(data), Object(data[WS(data)..], 1).n, Body(Scan(data)));
  }

  lemma ScanBody(data: string)
    requires Scan(data).Root?
    ensures var s := data[WS(data)..]; s[..Object(s, 1).n] == ['{'] + (Body(Scan(data)) + ['}'])
  {
    hide Object, WS, WellFormed, JoinPieces, CleanText, Scan, Repeats, WellFormedRoot, AllWellFormed, AllWS;
    ScanParts(data);
    ObjectSound(data[WS(data)..]);
  }

  lemma ScanForm(data: string)
    requires Scan(data).Root?
    ensures WellFormedRoot(Scan(data))
  {
    hide Object, WS, WellFormed, JoinPieces, CleanText, Scan, Repeats, AllWellFormed;
    ScanParts(data);
    ObjectSound(data[WS(data)..]);
  }
}
