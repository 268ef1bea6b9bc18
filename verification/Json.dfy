/**
The JSON text of a NetBird profile (RFC 8259, sections 2 to 7): what the scanner accepts,
as functions of the text from a position on. A byte is a char below 256.
*/
module Json {

  const MAX_NESTING := 10000

  predicate IsWS(c: char) {
    c == ' ' || c == '\t' || c == '\n' || c == '\r'
  }

  predicate AllWS(s: string) {
    forall c :: c in s ==> IsWS(c)
  }

  /** The length of the leading whitespace. */
  function WS(s: string): (n: nat)
    ensures n <= |s|
    ensures AllWS(s[..n])
    ensures n < |s| ==> !IsWS(s[n])
  {
    if |s| == 0 || !IsWS(s[0]) then 0
    else
      var n := 1 + WS(s[1..]);
      assert s[..n] == [s[0]] + s[1..][..n - 1];
      n
  }

  // ---- strings ----

  /** A string read: the bytes it took with its quotes, its decoded text, and whether every
      decoded character is printable ASCII. */
  datatype Text = BadText | Text(n: nat, text: string, plain: bool)

  predicate IsHex(c: char) {
    ('0' <= c <= '9') || ('a' <= c <= 'f') || ('A' <= c <= 'F')
  }

  function HexVal(c: char): nat
    requires IsHex(c)
  {
    if '0' <= c <= '9' then c as int - '0' as int
    else if 'a' <= c <= 'f' then c as int - 'a' as int + 10
    else c as int - 'A' as int + 10
  }

  predicate HasHex4(s: string, at: nat) {
    at + 4 <= |s| && IsHex(s[at]) && IsHex(s[at + 1]) && IsHex(s[at + 2]) && IsHex(s[at + 3])
  }

  function Hex4(s: string, at: nat): nat
    requires HasHex4(s, at)
  {
    HexVal(s[at]) * 4096 + HexVal(s[at + 1]) * 256 + HexVal(s[at + 2]) * 16 + HexVal(s[at + 3])
  }

  predicate Surrogate(v: nat) { 0xD800 <= v < 0xE000 }

  /** A second escape that completes a surrogate pair follows. */
  predicate Paired(s: string)
    requires HasHex4(s, 2)
  {
    && 0xD800 <= Hex4(s, 2) < 0xDC00 && 12 <= |s| && s[6] == '\\' && s[7] == 'u'
    && HasHex4(s, 8) && 0xDC00 <= Hex4(s, 8) < 0xE000
  }

  function EscapeLen(s: string): nat
    requires HasHex4(s, 2)
  {
    if Paired(s) then 12 else 6
  }

  /** The character an escape stands for; a lone surrogate is the replacement character. */
  function EscapeRune(s: string): nat
    requires HasHex4(s, 2)
  {
    if Paired(s) then (Hex4(s, 2) - 0xD800) * 1024 + (Hex4(s, 8) - 0xDC00) + 0x10000
    else if Surrogate(Hex4(s, 2)) then 0xFFFD
    else Hex4(s, 2)
  }

  function Byte(v: nat): char {
    if v < 256 then v as char else '?'
  }

  /** The UTF-8 bytes of a character. */
  function Utf8(r: nat): string {
    if r < 0x80 then [Byte(r)]
    else if r < 0x800 then [Byte(0xC0 + r / 64), Byte(0x80 + r % 64)]
    else if r < 0x10000 then [Byte(0xE0 + r / 4096), Byte(0x80 + r / 64 % 64), Byte(0x80 + r % 64)]
    else [Byte(0xF0 + r / 262144), Byte(0x80 + r / 4096 % 64), Byte(0x80 + r / 64 % 64), Byte(0x80 + r % 64)]
  }

  function Then(n: nat, piece: string, plain: bool, rest: Text): Text {
    match rest
    case BadText => BadText
    case Text(m, text, p) => Text(n + m, piece + text, plain && p)
  }

  /** What comes first inside a string: its end, or the bytes of one character. */
  datatype Head = BadHead | Close | Next(k: nat, piece: string, plain: bool)

  function HeadOf(s: string): (h: Head)
    ensures h.Next? ==> 0 < h.k <= |s|
  {
    if |s| == 0 then BadHead
    else if s[0] == '"' then Close
    else if s[0] == '\\' then
      if |s| < 2 then BadHead
      else if s[1] == '"' || s[1] == '\\' || s[1] == '/' then Next(2, [s[1]], true)
      else if s[1] == 'b' || s[1] == 'f' || s[1] == 'n' || s[1] == 'r' || s[1] == 't' then Next(2, "?", false)
      else if s[1] == 'u' && HasHex4(s, 2) then
        Next(EscapeLen(s), Utf8(EscapeRune(s)), 32 <= EscapeRune(s) < 127)
      else BadHead
    else if s[0] < ' ' then BadHead
    else Next(1, [s[0]], ' ' <= s[0] <= '~')
  }

  /** A string from just after its opening quote to just past its closing one. */
  function StrTail(s: string): (t: Text)
    ensures t.Text? ==> 1 <= t.n <= |s|
  {
    match HeadOf(s)
    case BadHead => BadText
    case Close => Text(1, "", true)
    case Next(k, piece, plain) => Then(k, piece, plain, StrTail(s[k..]))
  }

  /** A string with its opening quote first. */
  function Str(s: string): (t: Text)
    requires |s| > 0
    ensures t.Text? ==> 2 <= t.n <= |s|
  {
    Then(1, "", true, StrTail(s[1..]))
  }

  // ---- numbers ----

  predicate IsDigit(c: char) { '0' <= c <= '9' }

  function Digits(s: string): (n: nat)
    ensures n <= |s|
    ensures forall i :: 0 <= i < n ==> IsDigit(s[i])
    ensures n < |s| ==> !IsDigit(s[n])
  {
    if |s| == 0 || !IsDigit(s[0]) then 0 else 1 + Digits(s[1..])
  }

  datatype Span = NoSpan | Span(n: nat)

  function IntPart(s: string): (r: Span)
    ensures r.Span? ==> 0 < r.n <= |s|
  {
    var a := if |s| > 0 && s[0] == '-' then 1 else 0;
    if |s| <= a then NoSpan
    else if s[a] == '0' then Span(a + 1)
    else if IsDigit(s[a]) then Span(a + Digits(s[a..]))
    else NoSpan
  }

  /** The fraction, if one follows. */
  function FracPart(s: string): (r: Span)
    ensures r.Span? ==> r.n <= |s|
  {
    if |s| == 0 || s[0] != '.' then Span(0)
    else if Digits(s[1..]) == 0 then NoSpan
    else Span(1 + Digits(s[1..]))
  }

  function SignLen(s: string): (n: nat)
    ensures n <= |s|
  {
    if |s| > 0 && (s[0] == '+' || s[0] == '-') then 1 else 0
  }

  /** The exponent, if one follows. */
  function ExpPart(s: string): (r: Span)
    ensures r.Span? ==> r.n <= |s|
  {
    if |s| == 0 || (s[0] != 'e' && s[0] != 'E') then Span(0)
    else
      var a := 1 + SignLen(s[1..]);
      if Digits(s[a..]) == 0 then NoSpan else Span(a + Digits(s[a..]))
  }

  /** A number: no leading zeros, digits on both sides of a point and in an exponent. */
  function Number(s: string): (r: Span)
    ensures r.Span? ==> 0 < r.n <= |s|
  {
    var i := IntPart(s);
    if i.NoSpan? then NoSpan
    else
      var f := FracPart(s[i.n..]);
      if f.NoSpan? then NoSpan
      else
        var e := ExpPart(s[i.n + f.n..]);
        if e.NoSpan? then NoSpan else Span(i.n + f.n + e.n)
  }

  // ---- values ----

  datatype Kind = KString | KNumber | KTrue | KFalse | KNull | KObject | KArray

  /** A value read: the bytes it took, what it is, the decoded text of a string, and whether
      some object in it repeats a key. */
  datatype Val = BadVal | Val(n: nat, kind: Kind, str: string, plain: bool, dup: bool)

  /** One member as it stands in the text: the whitespace before the key, the key, what is
      between key and value, the value, the whitespace after it; and what they decode to. */
  datatype Piece = Piece(lead: string, key: string, colon: string, val: string, trail: string,
                         name: string, plain: bool, kind: Kind, str: string, strPlain: bool, dup: bool)

  datatype Members = BadMembers | Members(n: nat, list: seq<Piece>, dup: bool)

  datatype Elements = BadElements | Elements(n: nat, dup: bool)

  function Value(s: string, depth: nat): (v: Val)
    ensures v.Val? ==> 0 < v.n <= |s|
    decreases |s|, 2
  {
    if |s| == 0 then BadVal
    else if s[0] == '{' then
      (match Object(s, depth + 1)
       case BadMembers => BadVal
       case Members(n, _, dup) => Val(n, KObject, "", true, dup))
    else if s[0] == '[' then
      (match Array(s, depth + 1)
       case BadElements => BadVal
       case Elements(n, dup) => Val(n, KArray, "", true, dup))
    else if s[0] == '"' then
      (match Str(s)
       case BadText => BadVal
       case Text(n, text, plain) => Val(n, KString, text, plain, false))
    else if "true" <= s then Val(4, KTrue, "", true, false)
    else if "false" <= s then Val(5, KFalse, "", true, false)
    else if "null" <= s then Val(4, KNull, "", true, false)
    else if s[0] == '-' || IsDigit(s[0]) then
      (match Number(s)
       case NoSpan => BadVal
       case Span(n) => Val(n, KNumber, "", true, false))
    else BadVal
  }

  /** An object whose opening brace is first. */
  function Object(s: string, depth: nat): (m: Members)
    requires |s| > 0
    ensures m.Members? ==> 2 <= m.n <= |s|
    decreases |s|, 1
  {
    var w := WS(s[1..]);
    if depth > MAX_NESTING then BadMembers
    else if 1 + w < |s| && s[1 + w] == '}' then Members(w + 2, [], false)
    else
      match MemberList(s[1..], depth, {})
      case BadMembers => BadMembers
      case Members(n, list, dup) => Members(1 + n, list, dup)
  }

  /** Where a member's key starts and ends and its value starts, and what the key says. */
  datatype KeyRead = BadKey | KeyRead(a: nat, b: nat, d: nat, key: Text)

  /** Past the colon after a key that ends at b, and the whitespace around it. */
  function ColonAfter(s: string, b: nat): (r: Span)
    requires b <= |s|
    ensures r.Span? ==> b < r.n <= |s|
  {
    var c := b + WS(s[b..]);
    if c >= |s| || s[c] != ':' then NoSpan else Span(c + 1 + WS(s[c + 1..]))
  }

  function KeyOf(s: string): (r: KeyRead)
    ensures r.KeyRead? ==> r.a < r.b < r.d <= |s| && r.key.Text?
  {
    var a := WS(s);
    if a >= |s| || s[a] != '"' then BadKey
    else
      var key := Str(s[a..]);
      if key.BadText? then BadKey
      else
        var d := ColonAfter(s, a + key.n);
        if d.NoSpan? then BadKey else KeyRead(a, a + key.n, d.n, key)
  }

  /** One member and the byte after it, which must end it. */
  datatype MemberRead = BadMember | MemberRead(piece: Piece, end: nat)

  function MemberOf(s: string, k: KeyRead, v: Val): (r: MemberRead)
    requires k.KeyRead? && k.a <= k.b <= k.d && v.Val? && k.d + v.n <= |s|
    ensures r.MemberRead? ==> k.d + v.n <= r.end < |s| && (s[r.end] == ',' || s[r.end] == '}')
  {
    var e := k.d + v.n;
    var g := e + WS(s[e..]);
    if g >= |s| || (s[g] != ',' && s[g] != '}') || k.key.BadText? then BadMember
    else MemberRead(Piece(s[..k.a], s[k.a..k.b], s[k.b..k.d], s[k.d..e], s[e..g],
                          k.key.text, k.key.plain, v.kind, v.str, v.plain, v.dup), g)
  }

  function OneMember(s: string, depth: nat): (r: MemberRead)
    ensures r.MemberRead? ==> 0 < r.end < |s| && (s[r.end] == ',' || s[r.end] == '}')
    decreases |s|, 0
  {
    var k := KeyOf(s);
    if k.BadKey? then BadMember
    else
      var v := Value(s[k.d..], depth);
      if v.BadVal? then BadMember else MemberOf(s, k, v)
  }

  /** The members from just after the opening brace or a comma, to past the closing brace. */
  function MemberList(s: string, depth: nat, seen: set<string>): (m: Members)
    ensures m.Members? ==> 0 < m.n <= |s|
    decreases |s|, 1
  {
    match OneMember(s, depth)
    case BadMember => BadMembers
    case MemberRead(piece, end) =>
      var dup := piece.name in seen || piece.dup;
      if s[end] == '}' then Members(end + 1, [piece], dup)
      else
        match MemberList(s[end + 1..], depth, seen + {piece.name})
        case BadMembers => BadMembers
        case Members(n, list, more) => Members(end + 1 + n, [piece] + list, dup || more)
  }

  /** An array whose opening bracket is first. */
  function Array(s: string, depth: nat): (e: Elements)
    requires |s| > 0
    ensures e.Elements? ==> 2 <= e.n <= |s|
    decreases |s|, 1
  {
    var w := WS(s[1..]);
    if depth > MAX_NESTING then BadElements
    else if 1 + w < |s| && s[1 + w] == ']' then Elements(w + 2, false)
    else
      match ElementList(s[1..], depth)
      case BadElements => BadElements
      case Elements(n, dup) => Elements(1 + n, dup)
  }

  /** The comma or bracket after an element that ends at e. */
  function AfterElement(s: string, e: nat): (g: Span)
    requires e <= |s|
    ensures g.Span? ==> e <= g.n < |s| && (s[g.n] == ',' || s[g.n] == ']')
  {
    var g := e + WS(s[e..]);
    if g >= |s| || (s[g] != ',' && s[g] != ']') then NoSpan else Span(g)
  }

  function ElementList(s: string, depth: nat): (e: Elements)
    ensures e.Elements? ==> 0 < e.n <= |s|
    decreases |s|, 3
  {
    var v := Value(s[WS(s)..], depth);
    if v.BadVal? then BadElements
    else
      var g := AfterElement(s, WS(s) + v.n);
      if g.NoSpan? then BadElements
      else if s[g.n] == ']' then Elements(g.n + 1, v.dup)
      else
        match ElementList(s[g.n + 1..], depth)
        case BadElements => BadElements
        case Elements(n, dup) => Elements(g.n + 1 + n, v.dup || dup)
  }
}
