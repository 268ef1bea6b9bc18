/**
The owner record of a native exit: one line of eleven fields, written and read back.
*/
module Owner {
  import opened Rtnl
  import opened Numerals
  import opened Address

  datatype Rule94 = Conf | Applier

  datatype Record = Record(
    boot: string,
    stamp: nat,
    netns: string,
    generation: string,
    addr4: Opt<seq<nat>>,
    addr6: Opt<seq<nat>>,
    rule94: Rule94,
    repairs: nat,
    last: Opt<nat>
  )

  const LIMIT := Power(10, 12)

  predicate IsHexDash(s: string, max: nat) {
    0 < |s| <= max && forall c :: c in s ==> IsDigitOf(c, 16) || c == '-'
  }

  predicate IsUint(s: string) {
    |s| > 0 && AllDigits(s, 10)
  }

  predicate IsNetNS(s: string) {
    var i := Find(s, ':');
    i < |s| && IsUint(s[..i]) && i <= 20 && IsUint(s[i + 1..]) && |s| - i - 1 <= 20
  }

  /** An IPv4 address in IPv6 form. */
  predicate Mapped(g: seq<nat>)
    requires |g| == 8
  {
    Zeros(g, 0, 5) && g[5] == 0xffff
  }

  /** What the exit writes into a record. */
  predicate WellFormed(r: Record) {
    && IsHexDash(r.boot, 64) && IsHexDash(r.generation, 64) && IsNetNS(r.netns)
    && r.stamp < LIMIT && r.repairs < LIMIT && (r.last.Some? ==> r.last.v < LIMIT)
    && (r.addr4.Some? ==> IsBytes(r.addr4.v))
    && (r.addr6.Some? ==> IsGroups(r.addr6.v) && !Mapped(r.addr6.v))
    && (r.rule94.Applier? ==> r.addr4.None? && r.addr6.None?)
  }

  // ---- the fields as text ----

  function Text4(a: Opt<seq<nat>>): string
    requires a.Some? ==> IsBytes(a.v)
  {
    if a.Some? then Canonical4(a.v) else "-"
  }

  function Text6(a: Opt<seq<nat>>): string {
    if a.Some? then Canonical6(a.v) else "-"
  }

  function Text94(r: Rule94): string {
    if r.Conf? then "conf" else "applier"
  }

  function TextLast(last: Opt<nat>): string {
    if last.Some? then Num(last.v, 10) else "-"
  }

  function Fields(r: Record): seq<string>
    requires WellFormed(r)
  {
    ["molebridge-exit", "1", r.boot, Num(r.stamp, 10), r.netns, r.generation, Text4(r.addr4), Text6(r.addr6),
     Text94(r.rule94), Num(r.repairs, 10), TextLast(r.last)]
  }

  function Format(r: Record): string
    requires WellFormed(r)
  {
    Join(Fields(r), ' ') + "\n"
  }

  // ---- reading it ----

  function Read12(s: string): Opt<nat> {
    if IsUint(s) && |s| <= 12 then Some(Val(s, 10)) else None
  }

  /** A field that may be a dash: none, a value, or unreadable. */
  datatype Slot<T> = Bad | Good(v: Opt<T>)

  function ReadLast(s: string): Slot<nat> {
    if s == "-" then Good(None)
    else match Read12(s) case None => Bad case Some(n) => Good(Some(n))
  }

  function Read4(s: string): Slot<seq<nat>> {
    if s == "-" then Good(None)
    else
      match Parse4(s)
      case None => Bad
      case Some(b) => if |b| == 4 && Canonical4(b) == s then Good(Some(b)) else Bad
  }

  function Read6(s: string): Slot<seq<nat>> {
    if s == "-" then Good(None)
    else
      match Parse6(s)
      case None => Bad
      case Some(g) => if |g| == 8 && !Mapped(g) && Canonical6(g) == s then Good(Some(g)) else Bad
  }

  /** The fields of a line, judged. */
  function ReadFields(p: seq<string>): Opt<Record> {
    if |p| != 11 || p[0] != "molebridge-exit" || p[1] != "1" then None
    else if !IsHexDash(p[2], 64) || !IsNetNS(p[4]) || !IsHexDash(p[5], 64) || (p[8] != "conf" && p[8] != "applier") then None
    else
      var stamp, repairs, last, a4, a6 := Read12(p[3]), Read12(p[9]), ReadLast(p[10]), Read4(p[6]), Read6(p[7]);
      if stamp.None? || repairs.None? || last.Bad? || a4.Bad? || a6.Bad? then None
      else if p[8] == "applier" && (a4.v.Some? || a6.v.Some?) then None
      else Some(Record(p[2], stamp.v, p[4], p[5], a4.v, a6.v, if p[8] == "conf" then Conf else Applier, repairs.v, last.v))
  }

  /** One line, at most 513 bytes, ended by the only newline in it. */
  predicate IsLine(text: string) {
    0 < |text| <= 513 && text[|text| - 1] == '\n' && '\n' !in text[..|text| - 1]
  }

  function Parse(text: string): Opt<Record> {
    if !IsLine(text) then None else ReadFields(Split(text[..|text| - 1], ' '))
  }

  // ---- the fields read back ----

  lemma {:induction false} ValBound(s: string, b: nat)
    requires IsBase(b) && AllDigits(s, b)
    ensures Val(s, b) < Power(b, |s|)
  {
    if |s| > 0 {
      assert s[|s| - 1] in s;
      ValDigits(s[|s| - 1], b);
      ValBound(s[..|s| - 1], b);
      Times(Val(s[..|s| - 1], b), Power(b, |s| - 1), b);
    }
  }

  lemma Times(v: nat, p: nat, b: nat)
    requires v < p && IsBase(b)
    ensures Compose(v, b, b) <= b * p
  {
    if b == 10 {
    } else {
      assert b == 16;
    }
  }

  lemma {:induction false} PowerGrows(b: nat, j: nat, k: nat)
    requires IsBase(b) && j <= k
    ensures 0 < Power(b, j) <= Power(b, k)
    decreases k
  {
    if j < k {
      PowerGrows(b, j, k - 1);
      Times(Power(b, k - 1) - 1, Power(b, k - 1), b);
    } else if k > 0 {
      PowerGrows(b, k - 1, k - 1);
    }
  }

  lemma Read12Back(n: nat)
    requires n < LIMIT
    ensures Read12(Num(n, 10)) == Some(n) && Num(n, 10) != "-" && |Num(n, 10)| <= 12 && Plain(Num(n, 10))
  {
    NumVal(n, 10);
    NumLength(n, 10, 12);
    DigitsPlain(Num(n, 10), 10);
    assert Num(n, 10)[0] in Num(n, 10);
  }

  /** Neither a space nor a newline. */
  predicate Plain(t: string) {
    Free(t, ' ') && Free(t, '\n')
  }

  lemma DigitsPlain(s: string, b: nat)
    requires IsBase(b) && AllDigits(s, b)
    ensures Plain(s)
  {
  }

  lemma NetNSPlain(s: string)
    requires IsNetNS(s)
    ensures Plain(s) && |s| <= 41
  {
    var i := Find(s, ':');
    DigitsPlain(s[..i], 10);
    DigitsPlain(s[i + 1..], 10);
    assert s == s[..i] + [':'] + s[i + 1..];
  }

  lemma {:induction false} GroupsText(g: seq<nat>)
    requires AllGroups(g)
    ensures Plain(Groups(g)) && Free(Groups(g), '-') && |Groups(g)| <= 5 * |g|
    ensures |g| > 0 ==> 0 < |Groups(g)| <= 5 * |g| - 1
  {
    if |g| > 0 {
      TokenRead(g[0]);
      var t := Num(g[0], 16);
      DigitsPlain(t, 16);
      assert Tokens(g)[0] == t;
      if |g| > 1 {
        GroupsText(g[1..]);
        assert Tokens(g)[1..] == Tokens(g[1..]);
        assert Groups(g) == t + [':'] + Groups(g[1..]);
      }
    }
  }

  lemma Text6Back(g: seq<nat>)
    requires IsGroups(g) && !Mapped(g)
    ensures Read6(Canonical6(g)) == Good(Some(g)) && Plain(Canonical6(g)) && |Canonical6(g)| <= 39
  {
    hide Canonical6, Parse6, Plain, Mapped;
    RoundTrip6(g);
    Canonical6Text(g);
  }

  lemma Canonical6Text(g: seq<nat>)
    requires IsGroups(g)
    ensures Plain(Canonical6(g)) && |Canonical6(g)| <= 39 && Canonical6(g) != "-"
  {
    hide Groups, Best, Zeros;
    BestIsLeftmostLongest(g);
    var r := Best(g);
    GroupsText(g);
    GroupsText(g[..r.at]);
    GroupsText(g[r.at + r.len..]);
    assert Free(Canonical6(g), '-');
    assert '-' in "-";
  }

  lemma ByteText(n: nat)
    requires n < 256
    ensures Plain(Num(n, 10)) && 0 < |Num(n, 10)| <= 3
  {
    ByteRead(n);
    DigitsPlain(Num(n, 10), 10);
  }

  lemma Text4Back(b: seq<nat>)
    requires IsBytes(b)
    ensures Read4(Canonical4(b)) == Good(Some(b)) && Plain(Canonical4(b)) && |Canonical4(b)| <= 15
  {
    RoundTrip4(b);
    ByteText(b[0]);
    ByteText(b[1]);
    ByteText(b[2]);
    ByteText(b[3]);
    Dotted(Num(b[0], 10), Num(b[1], 10), Num(b[2], 10), Num(b[3], 10));
    hide Num, Parse4;
  }

  lemma Dotted(a: string, b: string, c: string, d: string)
    ensures Join([a, b, c, d], '.') == a + ['.'] + (b + ['.'] + (c + ['.'] + d))
  {
    JoinCons(a, [b, c, d], '.');
    JoinCons(b, [c, d], '.');
    JoinCons(c, [d], '.');
    assert [a] + [b, c, d] == [a, b, c, d] && [b] + [c, d] == [b, c, d] && [c] + [d] == [c, d];
  }

  // ---- the whole line ----

  function Total(sizes: seq<nat>): nat {
    if |sizes| == 0 then 0 else sizes[0] + Total(sizes[1..])
  }

  lemma {:induction false} JoinLength(list: seq<string>, sizes: seq<nat>, sep: char)
    requires |list| == |sizes| > 0 && forall i :: 0 <= i < |list| ==> |list[i]| <= sizes[i]
    ensures |Join(list, sep)| <= Total(sizes) + |list| - 1
  {
    if |list| > 1 {
      JoinLength(list[1..], sizes[1..], sep);
    }
  }

  lemma {:induction false} JoinFree(list: seq<string>, sep: char, c: char)
    requires c != sep && AllFree(list, c)
    ensures Free(Join(list, sep), c)
  {
    if c in Join(list, sep) {
      JoinChars(list, sep, c);
    }
  }

  const SIZES: seq<nat> := [15, 1, 64, 12, 41, 64, 15, 39, 7, 12, 12]

  lemma Slot4(a: Opt<seq<nat>>)
    requires a.Some? ==> IsBytes(a.v)
    ensures Read4(Text4(a)) == Good(a) && Plain(Text4(a)) && |Text4(a)| <= 15
  {
    if a.Some? {
      Text4Back(a.v);
    }
  }

  lemma Slot6(a: Opt<seq<nat>>)
    requires a.Some? ==> IsGroups(a.v) && !Mapped(a.v)
    ensures Read6(Text6(a)) == Good(a) && Plain(Text6(a)) && |Text6(a)| <= 39
  {
    if a.Some? {
      Text6Back(a.v);
    }
  }

  lemma SlotLast(last: Opt<nat>)
    requires last.Some? ==> last.v < LIMIT
    ensures ReadLast(TextLast(last)) == Good(last) && Plain(TextLast(last)) && |TextLast(last)| <= 12
  {
    if last.Some? {
      Read12Back(last.v);
    }
  }

  lemma Slot94(r: Rule94)
    ensures Plain(Text94(r)) && |Text94(r)| <= 7 && (Text94(r) == "conf" <==> r.Conf?) && (Text94(r) == "applier" <==> r.Applier?)
  {
    assert |Text94(Conf)| == 4 && |Text94(Applier)| == 7;
  }

  lemma FieldsPlain(r: Record)
    requires WellFormed(r)
    ensures AllFree(Fields(r), ' ') && AllFree(Fields(r), '\n')
  {
    hide Num, Text4, Text6, Text94, TextLast, IsNetNS, IsHexDash, Plain, LIMIT;
    Read12Back(r.stamp);
    Read12Back(r.repairs);
    SlotLast(r.last);
    Slot4(r.addr4);
    Slot6(r.addr6);
    Slot94(r.rule94);
    NetNSPlain(r.netns);
    HexDashPlain(r.boot);
    HexDashPlain(r.generation);
    HeadPlain();
    FreeEach(Fields(r));
  }

  lemma FieldsSizes(r: Record)
    requires WellFormed(r)
    ensures forall i :: 0 <= i < 11 ==> |Fields(r)[i]| <= SIZES[i]
  {
    hide Num, Text4, Text6, Text94, TextLast, IsNetNS, Plain, Free, AllDigits;
    Read12Back(r.stamp);
    Read12Back(r.repairs);
    SlotLast(r.last);
    Slot4(r.addr4);
    Slot6(r.addr6);
    Slot94(r.rule94);
    NetNSPlain(r.netns);
  }

  lemma HexDashPlain(s: string)
    requires IsHexDash(s, 64)
    ensures Plain(s)
  {
  }

  lemma HeadPlain()
    ensures Plain("molebridge-exit") && Plain("1")
  {
  }

  lemma FreeEach(list: seq<string>)
    requires forall i :: 0 <= i < |list| ==> Plain(list[i])
    ensures AllFree(list, ' ') && AllFree(list, '\n')
  {
  }

  lemma FieldsRead(r: Record)
    requires WellFormed(r)
    ensures ReadFields(Fields(r)) == Some(r)
  {
    hide Num, Text4, Text6, Text94, TextLast, Read4, Read6, ReadLast, Read12, IsNetNS, IsHexDash, Plain;
    Read12Back(r.stamp);
    Read12Back(r.repairs);
    SlotLast(r.last);
    Slot4(r.addr4);
    Slot6(r.addr6);
    Slot94(r.rule94);
  }

  lemma FieldsCount(r: Record)
    requires WellFormed(r)
    ensures |Fields(r)| == 11
  {
  }

  lemma TotalSize()
    ensures |SIZES| == 11 && Total(SIZES) == 282
  {
  }

  lemma FormatIsLine(r: Record)
    requires WellFormed(r)
    ensures IsLine(Format(r)) && Format(r)[..|Format(r)| - 1] == Join(Fields(r), ' ')
  {
    hide Fields, WellFormed, AllFree, Join;
    FieldsPlain(r);
    FieldsSizes(r);
    FieldsCount(r);
    JoinLength(Fields(r), SIZES, ' ');
    JoinFree(Fields(r), ' ', '\n');
    TotalSize();
    assert Format(r)[..|Format(r)| - 1] == Join(Fields(r), ' ');
  }

  /** A record written is read back as it was. */
  lemma RoundTrip(r: Record)
    requires WellFormed(r)
    ensures Parse(Format(r)) == Some(r)
  {
    FormatIsLine(r);
    FieldsPlain(r);
    FieldsRead(r);
    hide Fields, ReadFields, Format, IsLine;
    SplitJoin(Fields(r), ' ');
  }

  // ---- the other way ----

  lemma {:induction false} TokensBounded(list: seq<string>)
    ensures ReadTokens(list).Some? ==> AllGroups(ReadTokens(list).v)
  {
    if |list| > 0 && IsGroupText(list[0]) {
      TokensBounded(list[1..]);
      ValBound(list[0], 16);
      PowerGrows(16, |list[0]|, 4);
      assert Power(16, 1) == 16 && Power(16, 2) == 256 && Power(16, 3) == 4096 && Power(16, 4) == 0x10000;
    }
  }

  lemma Parse6Bounded(s: string)
    ensures Parse6(s).Some? ==> IsGroups(Parse6(s).v)
  {
    var k := FindDouble(s);
    TokensBounded(Split(s, ':'));
    TokensBounded(Split(s[..k], ':'));
    if k < |s| {
      TokensBounded(Split(s[k + 2..], ':'));
    }
    hide FindDouble, Split, ReadTokens;
  }

  lemma Read12Bounded(s: string)
    ensures Read12(s).Some? ==> Read12(s).v < LIMIT
  {
    if Read12(s).Some? {
      ValBound(s, 10);
      PowerGrows(10, |s|, 12);
    }
  }

  /** Whatever is read is well formed. */
  lemma ReadIsWellFormed(p: seq<string>)
    ensures ReadFields(p).Some? ==> WellFormed(ReadFields(p).v)
  {
    if |p| == 11 {
      Read12Bounded(p[3]);
      Read12Bounded(p[9]);
      Read12Bounded(p[10]);
      Parse6Bounded(p[7]);
      hide Read12, Parse4, Parse6, Canonical4, Canonical6, IsNetNS, IsHexDash;
      Parse4Bounded(p[6]);
    }
  }

  lemma Parse4Bounded(s: string)
    ensures Parse4(s).Some? ==> IsBytes(Parse4(s).v)
  {
  }

  /** The numbers of a line have no leading zeros. */
  predicate Tidy(p: seq<string>)
    requires |p| == 11
  {
    NoLeadingZero(p[3]) && NoLeadingZero(p[9]) && NoLeadingZero(p[10])
  }

  lemma Text12Iff(s: string)
    ensures Read12(s).Some? ==> (Num(Read12(s).v, 10) == s <==> NoLeadingZero(s))
  {
    if Read12(s).Some? {
      ValNumIff(s, 10);
    }
  }

  lemma TextLastIff(s: string)
    ensures ReadLast(s).Good? ==> (TextLast(ReadLast(s).v) == s <==> NoLeadingZero(s))
  {
    Text12Iff(s);
  }

  lemma Text4Is(s: string)
    ensures Read4(s).Good? && Read4(s).v.Some? ==> IsBytes(Read4(s).v.v)
    ensures Read4(s).Good? ==> Text4(Read4(s).v) == s
  {
    Parse4Bounded(s);
  }

  lemma Text6Is(s: string)
    ensures Read6(s).Good? ==> Text6(Read6(s).v) == s
  {
  }

  lemma FieldsBackIff(p: seq<string>)
    requires ReadFields(p).Some?
    ensures |p| == 11 && WellFormed(ReadFields(p).v) && (Fields(ReadFields(p).v) == p <==> Tidy(p))
  {
    hide Num, Text4, Text6, Text94, TextLast, Read4, Read6, ReadLast, Read12, IsNetNS, IsHexDash, NoLeadingZero, Plain;
    ReadIsWellFormed(p);
    var r := ReadFields(p).v;
    Text12Iff(p[3]);
    Text12Iff(p[9]);
    TextLastIff(p[10]);
    Text4Is(p[6]);
    Text6Is(p[7]);
    Slot94(r.rule94);
    var f := Fields(r);
    assert f[0] == p[0] && f[1] == p[1] && f[2] == p[2] && f[4] == p[4] && f[5] == p[5];
    assert f[6] == p[6] && f[7] == p[7] && f[8] == p[8];
    if Tidy(p) {
      assert f[3] == p[3] && f[9] == p[9] && f[10] == p[10];
    }
  }

  /** A line that is read is written back unchanged exactly when its numbers have no leading
      zeros, which reading allows. */
  lemma RewriteIff(text: string)
    requires Parse(text).Some?
    ensures var p := Split(text[..|text| - 1], ' ');
            |p| == 11 && WellFormed(Parse(text).v) && (Format(Parse(text).v) == text <==> Tidy(p))
  {
    var body := text[..|text| - 1];
    var p := Split(body, ' ');
    FieldsBackIff(p);
    var r := ReadFields(p).v;
    JoinSplit(body, ' ');
    assert text == body + "\n";
    FieldsPlain(r);
    SplitJoin(Fields(r), ' ');
    hide Split, Fields, ReadFields, Join, Tidy, WellFormed;
    if Format(r) == text {
      assert (Join(Fields(r), ' ') + "\n")[..|text| - 1] == Join(Fields(r), ' ');
    }
  }
}
