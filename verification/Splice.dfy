/**
Editing a profile's text in place: one span is replaced or inserted, every other byte stays,
and the result is read back as the same members with the one field changed.
*/
module Splice {
  import opened Json
  import opened JsonLocal
  import opened Profile
  import opened Blacklist

  // ---- names ----

  /** Printable ASCII that a JSON string holds as it is. */
  predicate PlainName(name: string) {
    forall c :: c in name ==> c != '"' && c != '\\' && ' ' <= c <= '~'
  }

  predicate Alnum(c: char) {
    ('a' <= c <= 'z') || ('A' <= c <= 'Z') || ('0' <= c <= '9') || c == '_'
  }

  predicate ValidInterfaceName(name: string) {
    && 0 < |name| <= 15 && Alnum(name[0])
    && forall i :: 0 < i < |name| ==> Alnum(name[i]) || name[i] == '.' || name[i] == '-'
  }

  lemma ValidIsPlain(name: string)
    requires ValidInterfaceName(name)
    ensures PlainName(name)
  {
  }

  function Quote(s: string): string {
    ['"'] + (s + ['"'])
  }

  lemma {:induction false} PlainTail(name: string)
    requires PlainName(name)
    ensures StrTail(name + ['"']) == Text(|name| + 1, name, true)
  {
    hide StrTail;
    var s := name + ['"'];
    TailOpens(s);
    if |name| > 0 {
      assert name[0] in name && forall c :: c in name[1..] ==> c in name;
      PlainTail(name[1..]);
      assert s[1..] == name[1..] + ['"'];
      assert [name[0]] + name[1..] == name;
    }
  }

  lemma TailOpens(s: string)
    ensures var h := HeadOf(s);
            && (h.Close? ==> StrTail(s) == Text(1, "", true))
            && (h.Next? ==> StrTail(s) == Then(h.k, h.piece, h.plain, StrTail(s[h.k..])))
  {
    hide HeadOf;
  }

  lemma QuoteReads(name: string)
    requires PlainName(name)
    ensures Str(Quote(name)) == Text(|Quote(name)|, name, true) && Ascii(Quote(name))
  {
    hide StrTail;
    PlainTail(name);
    assert Quote(name)[1..] == name + ['"'];
    assert "" + name == name;
  }

  lemma GoodName(lead: string, name: string, trail: string)
    requires AllWS(lead) && AllWS(trail) && PlainName(name)
    ensures GoodElem(Elem(lead, Quote(name), trail, name))
  {
    QuoteReads(name);
  }

  predicate AllPlain(names: seq<string>) {
    forall n :: n in names ==> PlainName(n)
  }

  /** NetBird's own list, which it fills in when the list is empty. */
  const DEFAULTS: seq<string> := ["wt0", "wt", "utun", "tun0", "zt", "ZeroTier", "wg", "ts",
                                  "Tailscale", "tailscale", "docker", "veth", "br-", "lo"]

  lemma DefaultsPlain()
    ensures AllPlain(DEFAULTS) && |DEFAULTS| == 14
  {
    forall n | n in DEFAULTS
      ensures PlainName(n)
    {
      forall c | c in n
        ensures c != '"' && c != '\\' && ' ' <= c <= '~'
      {
      }
    }
  }

  // ---- the list's new text ----

  /** The elements written for names: whitespace before the first, before each other, at the end. */
  function Written(names: seq<string>, first: string, between: string, tail: string): (es: seq<Elem>)
    ensures |es| == |names|
  {
    if |names| == 0 then []
    else if |names| == 1 then [Elem(first, Quote(names[0]), tail, names[0])]
    else [Elem(first, Quote(names[0]), "", names[0])] + Written(names[1..], between, between, tail)
  }

  function Texts(list: seq<Elem>): (ts: seq<string>)
    ensures |ts| == |list|
  {
    seq(|list|, i requires 0 <= i < |list| => list[i].text)
  }

  lemma {:induction false} WrittenGood(names: seq<string>, first: string, between: string, tail: string)
    requires AllPlain(names) && AllWS(first) && AllWS(between) && AllWS(tail)
    ensures AllGood(Written(names, first, between, tail)) && Texts(Written(names, first, between, tail)) == names
  {
    if |names| > 0 {
      assert names[0] in names;
      GoodName(first, names[0], tail);
      GoodName(first, names[0], "");
      if |names| > 1 {
        assert forall n :: n in names[1..] ==> n in names;
        WrittenGood(names[1..], between, between, tail);
        var es := Written(names, first, between, tail);
        assert es[1..] == Written(names[1..], between, between, tail);
        assert Texts(es)[1..] == Texts(es[1..]);
        assert Texts(es) == [names[0]] + Texts(es[1..]);
      } else {
        assert Texts(Written(names, first, between, tail)) == names;
      }
    }
  }

  function JoinQuoted(names: seq<string>, sep: string): string {
    if |names| == 0 then ""
    else if |names| == 1 then Quote(names[0])
    else Quote(names[0]) + (sep + JoinQuoted(names[1..], sep))
  }

  lemma {:induction false} WrittenText(names: seq<string>, first: string, between: string, tail: string)
    requires |names| > 0
    ensures JoinElems(Written(names, first, between, tail)) == first + (JoinQuoted(names, [','] + between) + tail)
  {
    if |names| > 1 {
      var rest := Written(names[1..], between, between, tail);
      var es := Written(names, first, between, tail);
      assert es[1..] == rest;
      WrittenText(names[1..], between, between, tail);
      var q, more := Quote(names[0]), JoinQuoted(names[1..], [','] + between);
      assert q + "" == q;
      Assoc([','], between, more + tail);
      Assoc([','] + between, more, tail);
      Assoc(q, ([',' ] + between) + more, tail);
      Assoc(first, q, [','] + (between + (more + tail)));
    }
  }

  /** The index just past the last line feed, or none. */
  function LastLine(s: string): Span {
    if |s| == 0 then NoSpan
    else if s[|s| - 1] == '\n' then Span(|s|)
    else LastLine(s[..|s| - 1])
  }

  lemma {:induction false} LastLineWithin(s: string)
    ensures LastLine(s).Span? ==> 0 < LastLine(s).n <= |s| && s[LastLine(s).n - 1] == '\n'
  {
    if |s| > 0 && s[|s| - 1] != '\n' {
      LastLineWithin(s[..|s| - 1]);
    }
  }

  /** The text of a list: on one line, or one element per line below the key's indentation. */
  function ArrayText(names: seq<string>, lead: string, unit: string, sep: string): string {
    var at := LastLine(lead);
    if at.NoSpan? || at.n > |lead| then ['['] + (JoinQuoted(names, [','] + sep) + [']'])
    else
      var nl := if at.n > 1 && lead[at.n - 2] == '\r' then "\r\n" else "\n";
      var indent := lead[at.n..];
      ['['] + ((nl + indent + unit) + (JoinQuoted(names, [','] + (nl + indent + unit)) + ((nl + indent) + [']'])))
  }

  /** The whitespace an array's text is written with: first, between, at the end. */
  function Spacing(lead: string, unit: string, sep: string): (string, string, string) {
    var at := LastLine(lead);
    if at.NoSpan? || at.n > |lead| then ("", sep, "")
    else
      var nl := if at.n > 1 && lead[at.n - 2] == '\r' then "\r\n" else "\n";
      var indent := lead[at.n..];
      (nl + indent + unit, nl + indent + unit, nl + indent)
  }

  lemma ArrayTextIs(names: seq<string>, lead: string, unit: string, sep: string)
    requires |names| > 0
    ensures var w := Spacing(lead, unit, sep);
            ArrayText(names, lead, unit, sep) == ArrayOf("", Written(names, w.0, w.1, w.2))
  {
    var (first, between, tail) := Spacing(lead, unit, sep);
    WrittenText(names, first, between, tail);
    var q := JoinQuoted(names, [','] + between);
    Assoc(first, q + tail, [']']);
    Assoc(q, tail, [']']);
    assert "" + (q + "") == q;
  }

  lemma SpacingWS(lead: string, unit: string, sep: string)
    requires AllWS(lead) && AllWS(unit) && AllWS(sep)
    ensures var w := Spacing(lead, unit, sep); AllWS(w.0) && AllWS(w.1) && AllWS(w.2)
  {
    LastLineWithin(lead);
  }

  /** A written list is an array value whose strings are the names. */
  lemma ArrayTextReads(names: seq<string>, lead: string, unit: string, sep: string)
    requires |names| > 0 && AllPlain(names) && AllWS(lead) && AllWS(unit) && AllWS(sep)
    ensures var val := ArrayText(names, lead, unit, sep);
            && Value(val, 1) == Val(|val|, KArray, "", true, false)
            && StringArray(val).Strings? && Texts(StringArray(val).list) == names
  {
    hide Value, StringArray, Written, ArrayText, GoodElem, ArrayOf;
    var w := Spacing(lead, unit, sep);
    SpacingWS(lead, unit, sep);
    ArrayTextIs(names, lead, unit, sep);
    WrittenGood(names, w.0, w.1, w.2);
    ArrayExact("", Written(names, w.0, w.1, w.2));
  }

  // ---- a value among its neighbours ----

  function KeyText(p: Piece): string {
    p.lead + (p.key + p.colon)
  }

  /** The members' text before the value of member i, and after it. */
  function BeforeVal(list: seq<Piece>, i: nat): string
    requires i < |list|
  {
    if i == 0 then KeyText(list[0]) else PieceText(list[0]) + ([','] + BeforeVal(list[1..], i - 1))
  }

  function AfterVal(list: seq<Piece>, i: nat): string
    requires i < |list|
  {
    if i > 0 then AfterVal(list[1..], i - 1)
    else if |list| == 1 then list[0].trail
    else list[0].trail + ([','] + JoinPieces(list[1..]))
  }

  lemma PieceAround(p: Piece, more: string)
    ensures PieceText(p) == KeyText(p) + (p.val + p.trail)
    ensures PieceText(p) + more == KeyText(p) + (p.val + (p.trail + more))
  {
    Assoc(p.key, p.colon, p.val + p.trail);
    Assoc(p.lead, p.key + p.colon, p.val + p.trail);
    Assoc(KeyText(p), p.val + p.trail, more);
    Assoc(p.val, p.trail, more);
  }

  lemma {:induction false} JoinAround(list: seq<Piece>, i: nat)
    requires i < |list|
    ensures JoinPieces(list) == BeforeVal(list, i) + (list[i].val + AfterVal(list, i))
  {
    hide PieceText, KeyText;
    if i == 0 {
      PieceAround(list[0], if |list| == 1 then "" else [','] + JoinPieces(list[1..]));
    } else {
      JoinAround(list[1..], i - 1);
      var b, v, a := BeforeVal(list[1..], i - 1), list[i].val, AfterVal(list[1..], i - 1);
      Assoc([','], b, v + a);
      Assoc(PieceText(list[0]), [','] + b, v + a);
    }
  }

  /** A member given another list as its value. */
  function Revalued(p: Piece, val: string): Piece {
    p.(val := val, kind := KArray, str := "", strPlain := true, dup := false)
  }

  lemma {:induction false} SameAround(list: seq<Piece>, i: nat, val: string)
    requires i < |list|
    ensures var list' := list[i := Revalued(list[i], val)];
            BeforeVal(list', i) == BeforeVal(list, i) && AfterVal(list', i) == AfterVal(list, i)
  {
    var list' := list[i := Revalued(list[i], val)];
    if i > 0 {
      assert list'[1..] == list[1..][i - 1 := Revalued(list[i], val)];
      SameAround(list[1..], i - 1, val);
    } else {
      assert list'[1..] == list[1..];
    }
  }

  lemma {:induction false} RevaluedNoRepeat(list: seq<Piece>, i: nat, val: string, seen: set<string>)
    requires i < |list| && !Repeats(list, seen)
    ensures !Repeats(list[i := Revalued(list[i], val)], seen)
  {
    var list' := list[i := Revalued(list[i], val)];
    if i > 0 {
      assert list'[1..] == list[1..][i - 1 := Revalued(list[i], val)];
      RevaluedNoRepeat(list[1..], i - 1, val, seen + {list[0].name});
    } else {
      assert list'[1..] == list[1..];
    }
  }

  // ---- replacing the value of one member ----

  /** The root with another list as the value of member i. */
  function WithValue(r: Scanned, i: nat, val: string): Scanned
    requires r.Root? && i < |r.list|
  {
    r.(list := r.list[i := Revalued(r.list[i], val)])
  }

  /** Where member i's value starts in the text, and where it ends. */
  function ValStart(r: Scanned, i: nat): nat
    requires r.Root? && i < |r.list|
  {
    |r.before| + 1 + |BeforeVal(r.list, i)|
  }

  function ValEnd(r: Scanned, i: nat): nat
    requires r.Root? && i < |r.list|
  {
    ValStart(r, i) + |r.list[i].val|
  }

  function HeadText(r: Scanned, i: nat): string
    requires r.Root? && i < |r.list|
  {
    r.before + (['{'] + BeforeVal(r.list, i))
  }

  function TailText(r: Scanned, i: nat): string
    requires r.Root? && i < |r.list|
  {
    AfterVal(r.list, i) + (['}'] + r.after)
  }

  lemma RootAround(r: Scanned, i: nat)
    requires r.Root? && i < |r.list|
    ensures RootText(r) == HeadText(r, i) + (r.list[i].val + TailText(r, i))
  {
    JoinAround(r.list, i);
    var b, v, a := BeforeVal(r.list, i), r.list[i].val, AfterVal(r.list, i);
    var end := ['}'] + r.after;
    Assoc(b, v + a, end);
    Assoc(v, a, end);
    Assoc(['{'], b, v + (a + end));
    Assoc(r.before, ['{'] + b, v + (a + end));
  }

  lemma RootCut(r: Scanned, i: nat)
    requires r.Root? && i < |r.list|
    ensures ValEnd(r, i) <= |RootText(r)|
    ensures RootText(r)[..ValStart(r, i)] == HeadText(r, i) && RootText(r)[ValEnd(r, i)..] == TailText(r, i)
    ensures RootText(r)[ValStart(r, i)..ValEnd(r, i)] == r.list[i].val
  {
    RootAround(r, i);
    DropConcat(HeadText(r, i), r.list[i].val + TailText(r, i));
    Mid(HeadText(r, i), r.list[i].val, TailText(r, i));
    Assoc(HeadText(r, i), r.list[i].val, TailText(r, i));
    DropConcat(HeadText(r, i) + r.list[i].val, TailText(r, i));
  }

  /** Replacing the bytes of the value is replacing the value. */
  lemma ReplaceIsRevalue(r: Scanned, i: nat, val: string)
    requires r.Root? && i < |r.list|
    ensures ValEnd(r, i) <= |RootText(r)|
    ensures RootText(r)[..ValStart(r, i)] + (val + RootText(r)[ValEnd(r, i)..]) == RootText(WithValue(r, i, val))
  {
    RootCut(r, i);
    SameAround(r.list, i, val);
    RootAround(WithValue(r, i, val), i);
  }

  lemma RevaluedWellFormed(p: Piece, val: string)
    requires WellFormed(p, 1) && Value(val, 1) == Val(|val|, KArray, "", true, false)
    ensures WellFormed(Revalued(p, val), 1)
  {
    hide Value, Str, IsColon;
  }

  lemma {:induction false} TailDelim(list: seq<Piece>, i: nat)
    requires i < |list| && AllWellFormed(list, 1)
    ensures |AfterVal(list, i)| == 0 || Delim(AfterVal(list, i)[0])
  {
    hide Value, Str, IsColon, JoinPieces;
    if i > 0 {
      assert forall p :: p in list[1..] ==> p in list;
      TailDelim(list[1..], i - 1);
    } else {
      assert list[0] in list;
      if |list[0].trail| > 0 {
        assert list[0].trail[0] in list[0].trail;
      }
    }
  }

  lemma TailStartsAscii(r: Scanned, i: nat)
    requires r.Root? && i < |r.list| && AllWellFormed(r.list, 1)
    ensures |TailText(r, i)| > 0 && Delim(TailText(r, i)[0]) && TailText(r, i)[0] as int < 0x80
  {
    hide WellFormed, AfterVal;
    TailDelim(r.list, i);
  }

  /** A value a list may stand in for starts with an ASCII byte. */
  lemma ValueStartsAscii(val: string)
    requires Value(val, 1).Val?
    ensures |val| > 0 && val[0] as int < 0x80
  {
  }

  lemma RevaluedRoot(r: Scanned, i: nat, val: string)
    requires r.Root? && i < |r.list| && WellFormedRoot(r) && !r.dup
    requires Value(val, 1) == Val(|val|, KArray, "", true, false)
    ensures WellFormedRoot(WithValue(r, i, val))
  {
    hide Value, WellFormed, CleanText, RootText, JoinPieces, TailText, HeadText;
    var r' := WithValue(r, i, val);
    assert r.list[i] in r.list;
    RevaluedWellFormed(r.list[i], val);
    forall p | p in r'.list
      ensures WellFormed(p, 1)
    {
      var j :| 0 <= j < |r'.list| && r'.list[j] == p;
      if j != i {
        assert r.list[j] in r.list;
      }
    }
    RevaluedNoRepeat(r.list, i, val, {});
  }

  lemma RevaluedClean(r: Scanned, i: nat, val: string)
    requires r.Root? && i < |r.list| && WellFormedRoot(r) && CleanText(RootText(r)) && Ascii(val)
    ensures CleanText(RootText(WithValue(r, i, val)))
  {
    hide Value, CleanText, Ascii, RootText, JoinPieces, TailText, HeadText, BeforeVal, AfterVal;
    assert r.list[i] in r.list;
    var was, tail := r.list[i].val, TailText(r, i);
    TailStartsAscii(r, i);
    ValueStartsAscii(was);
    assert (was + tail)[0] == was[0];
    RootAround(r, i);
    SpliceClean(HeadText(r, i), was, tail, val);
    RootAround(WithValue(r, i, val), i);
    SameParts(r, i, val);
  }

  lemma SameParts(r: Scanned, i: nat, val: string)
    requires r.Root? && i < |r.list|
    ensures HeadText(WithValue(r, i, val), i) == HeadText(r, i) && TailText(WithValue(r, i, val), i) == TailText(r, i)
  {
    SameAround(r.list, i, val);
  }

  /** After the value of one member is replaced by a list, reading the text again gives the same
      members with that value changed. */
  lemma ReplacedReads(r: Scanned, i: nat, val: string)
    requires r.Root? && i < |r.list| && WellFormedRoot(r) && !r.dup && CleanText(RootText(r))
    requires Value(val, 1) == Val(|val|, KArray, "", true, false) && Ascii(val)
    ensures ValEnd(r, i) <= |RootText(r)|
    ensures Scan(RootText(r)[..ValStart(r, i)] + (val + RootText(r)[ValEnd(r, i)..])) == WithValue(r, i, val)
  {
    hide Value, WellFormed, CleanText, Ascii, RootText, JoinPieces, Scan, ValStart, ValEnd;
    ReplaceIsRevalue(r, i, val);
    RevaluedRoot(r, i, val);
    RevaluedClean(r, i, val);
    ScanExact(WithValue(r, i, val));
  }

  // ---- appending to a list of strings ----

  /** The elements with no whitespace after the last. */
  function Bare(list: seq<Elem>): seq<Elem>
    requires |list| > 0
  {
    list[|list| - 1 := list[|list| - 1].(trail := "")]
  }

  function LastTrail(list: seq<Elem>): string
    requires |list| > 0
  {
    list[|list| - 1].trail
  }

  function AddOne(list: seq<Elem>, lead: string, name: string): (out: seq<Elem>)
    requires |list| > 0
    ensures |out| > 0
  {
    Bare(list) + [Elem(lead, Quote(name), LastTrail(list), name)]
  }

  function AddNames(list: seq<Elem>, lead: string, names: seq<string>): (out: seq<Elem>)
    requires |list| > 0
    ensures |out| > 0
    decreases |names|
  {
    if |names| == 0 then list else AddNames(AddOne(list, lead, names[0]), lead, names[1..])
  }

  /** The text put in after the last element. */
  function InsText(names: seq<string>, lead: string): string {
    if |names| == 0 then "" else ([','] + (lead + Quote(names[0]))) + InsText(names[1..], lead)
  }

  lemma {:induction false} JoinSnoc(list: seq<Elem>, e: Elem)
    requires |list| > 0
    ensures JoinElems(list + [e]) == JoinElems(list) + ([','] + ElemText(e))
  {
    hide ElemText;
    var all := list + [e];
    assert all[1..] == list[1..] + [e];
    if |list| > 1 {
      JoinSnoc(list[1..], e);
      Assoc([','], JoinElems(list[1..]), [','] + ElemText(e));
      Assoc(ElemText(list[0]), [','] + JoinElems(list[1..]), [','] + ElemText(e));
    } else {
      assert all[1..] == [e];
    }
  }

  lemma {:induction false} BareText(list: seq<Elem>)
    requires |list| > 0
    ensures JoinElems(list) == JoinElems(Bare(list)) + LastTrail(list)
  {
    if |list| == 1 {
      var e := list[0];
      assert e.raw + "" == e.raw;
      Assoc(e.lead, e.raw, e.trail);
    } else {
      assert Bare(list)[1..] == Bare(list[1..]);
      BareText(list[1..]);
      Assoc([','], JoinElems(Bare(list[1..])), LastTrail(list));
      Assoc(ElemText(list[0]), [','] + JoinElems(Bare(list[1..])), LastTrail(list));
    }
  }

  lemma {:induction false} AddNamesText(list: seq<Elem>, lead: string, names: seq<string>)
    requires |list| > 0
    ensures JoinElems(AddNames(list, lead, names)) == JoinElems(Bare(list)) + (InsText(names, lead) + LastTrail(list))
    decreases |names|
  {
    hide JoinElems, Quote;
    if |names| == 0 {
      BareText(list);
      assert "" + LastTrail(list) == LastTrail(list);
    } else {
      var next := AddOne(list, lead, names[0]);
      AddNamesText(next, lead, names[1..]);
      var q := Quote(names[0]);
      assert Bare(next) == Bare(list) + [Elem(lead, q, "", names[0])];
      JoinSnoc(Bare(list), Elem(lead, q, "", names[0]));
      assert q + "" == q;
      var one, more := [','] + (lead + q), InsText(names[1..], lead) + LastTrail(list);
      Assoc(JoinElems(Bare(list)), one, more);
      Assoc(one, InsText(names[1..], lead), LastTrail(list));
    }
  }

  lemma {:induction false} AddNamesGood(list: seq<Elem>, lead: string, names: seq<string>)
    requires |list| > 0 && AllGood(list) && AllWS(lead) && AllPlain(names)
    ensures AllGood(AddNames(list, lead, names)) && Texts(AddNames(list, lead, names)) == Texts(list) + names
    decreases |names|
  {
    if |names| > 0 {
      var next := AddOne(list, lead, names[0]);
      assert names[0] in names && forall n :: n in names[1..] ==> n in names;
      AddOneGood(list, lead, names[0]);
      AddNamesGood(next, lead, names[1..]);
      assert Texts(list) + names == (Texts(list) + [names[0]]) + names[1..];
    } else {
      assert Texts(list) + names == Texts(list);
    }
  }

  lemma AddOneGood(list: seq<Elem>, lead: string, name: string)
    requires |list| > 0 && AllGood(list) && AllWS(lead) && PlainName(name)
    ensures AllGood(AddOne(list, lead, name)) && Texts(AddOne(list, lead, name)) == Texts(list) + [name]
  {
    hide Str, Quote, PlainName;
    var last := list[|list| - 1];
    assert last in list;
    GoodName(lead, name, last.trail);
    var next := AddOne(list, lead, name);
    forall e | e in next
      ensures GoodElem(e)
    {
      var i :| 0 <= i < |next| && next[i] == e;
      if i < |list| - 1 {
        assert list[i] in list;
      }
    }
  }

  /** Where a name is put in, counted from the start of the value. */
  function InsertAt(list: seq<Elem>): nat
    requires |list| > 0
  {
    1 + |JoinElems(Bare(list))|
  }

  /** Inserting after the last element is appending to the list. */
  lemma InsertIsAppend(list: seq<Elem>, lead: string, names: seq<string>)
    requires |list| > 0
    ensures var val := ArrayOf("", list);
            var k := InsertAt(list);
            k <= |val| && ArrayOf("", AddNames(list, lead, names)) == val[..k] + (InsText(names, lead) + val[k..])
  {
    hide JoinElems, InsText, AddNames;
    var val := ArrayOf("", list);
    var bare, ins, trail := JoinElems(Bare(list)), InsText(names, lead), LastTrail(list);
    BareText(list);
    AddNamesText(list, lead, names);
    Assoc(bare, trail, [']']);
    Assoc(['['], bare, trail + [']']);
    DropConcat(['['] + bare, trail + [']']);
    Assoc(bare, ins + trail, [']']);
    Assoc(ins, trail, [']']);
    Assoc(['['], bare, ins + (trail + [']']));
  }

  lemma InsertInside<T>(data: seq<T>, a: nat, b: nat, k: nat, ins: seq<T>)
    requires a <= b <= |data| && a + k <= b
    ensures var val := data[a..b];
            data[..a + k] + (ins + data[a + k..]) == data[..a] + ((val[..k] + (ins + val[k..])) + data[b..])
  {
    var val := data[a..b];
    assert data[..a + k] == data[..a] + val[..k];
    assert data[a + k..] == val[k..] + data[b..];
    Assoc(ins, val[k..], data[b..]);
    Assoc(val[..k], ins + val[k..], data[b..]);
    Assoc(data[..a], val[..k], ins + (val[k..] + data[b..]));
  }

  /** ASCII text put in before an ASCII byte keeps a text clean. */
  lemma InsertClean(data: string, at: nat, ins: string)
    requires at < |data| && CleanText(data) && Ascii(ins) && data[at] as int < 0x80
    ensures CleanText(data[..at] + (ins + data[at..]))
  {
    hide CleanText, Ascii;
    assert "" + data[at..] == data[at..] && data[..at] + data[at..] == data;
    SpliceClean(data[..at], "", data[at..], ins);
  }

  /** After names are put in behind the last element of a member's list, reading the text again
      gives the same members with that list longer. */
  lemma InsertedReads(r: Scanned, i: nat, es: seq<Elem>, lead: string, names: seq<string>)
    requires r.Root? && i < |r.list| && WellFormedRoot(r) && !r.dup && CleanText(RootText(r))
    requires |es| > 0 && AllGood(es) && r.list[i].val == ArrayOf("", es) && AllWS(lead) && AllPlain(names)
    requires Ascii(InsText(names, lead))
    ensures var data := RootText(r);
            var at := ValStart(r, i) + InsertAt(es);
            && at <= |data|
            && Scan(data[..at] + (InsText(names, lead) + data[at..])) ==
               WithValue(r, i, ArrayOf("", AddNames(es, lead, names)))
  {
    hide Value, WellFormed, CleanText, Ascii, RootText, Scan, ArrayOf, InsText, AddNames, AllGood, ValStart, InsertAt;
    var val := ArrayOf("", AddNames(es, lead, names));
    InsertedText(r, i, es, lead, names);
    AddNamesGood(es, lead, names);
    ArrayExact("", AddNames(es, lead, names));
    RevaluedRoot(r, i, val);
    hide WellFormedRoot;
    InsertClean(RootText(r), ValStart(r, i) + InsertAt(es), InsText(names, lead));
    ScanExact(WithValue(r, i, val));
  }

  lemma InsertedText(r: Scanned, i: nat, es: seq<Elem>, lead: string, names: seq<string>)
    requires r.Root? && i < |r.list| && |es| > 0 && AllGood(es) && r.list[i].val == ArrayOf("", es)
    ensures var data := RootText(r);
            var at := ValStart(r, i) + InsertAt(es);
            && at < |data| && data[at] as int < 0x80
            && data[..at] + (InsText(names, lead) + data[at..]) == RootText(WithValue(r, i, ArrayOf("", AddNames(es, lead, names))))
  {
    hide RootText, ArrayOf, InsText, AddNames, AllGood, InsertAt, ValStart, HeadText, TailText, WithValue;
    RootCut(r, i);
    InsertIsAppend(es, lead, names);
    ReplaceIsRevalue(r, i, ArrayOf("", AddNames(es, lead, names)));
    AfterLastAscii(es);
    InsertMiddle(RootText(r), ValStart(r, i), ValEnd(r, i), InsertAt(es), InsText(names, lead), ArrayOf("", AddNames(es, lead, names)));
  }

  lemma InsertMiddle<T>(data: seq<T>, a: nat, b: nat, k: nat, ins: seq<T>, longer: seq<T>)
    requires a <= b <= |data| && k < b - a && longer == data[a..b][..k] + (ins + data[a..b][k..])
    ensures data[..a + k] + (ins + data[a + k..]) == data[..a] + (longer + data[b..]) && data[a + k] == data[a..b][k]
  {
    InsertInside(data, a, b, k, ins);
  }

  lemma AfterLastAscii(es: seq<Elem>)
    requires |es| > 0 && AllGood(es)
    ensures InsertAt(es) < |ArrayOf("", es)| && ArrayOf("", es)[InsertAt(es)] as int < 0x80
  {
    hide JoinElems, Str;
    BareText(es);
    var last := es[|es| - 1];
    assert last in es;
    if |last.trail| > 0 {
      assert last.trail[0] in last.trail;
    }
  }
}
