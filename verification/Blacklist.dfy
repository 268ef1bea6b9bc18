/**
The profile's lists of strings: which field they stand in, their elements as pieces of text,
and what NetBird's filter makes of them.
*/
module Blacklist {
  import opened Json
  import opened JsonLocal
  import opened Profile

  // ---- an array of strings ----

  /** One element: the whitespace before it, the string with its quotes, the whitespace after. */
  datatype Elem = Elem(lead: string, raw: string, trail: string, text: string)

  datatype StringRead = NotStrings | Strings(n: nat, list: seq<Elem>)

  function ElemText(e: Elem): string {
    e.lead + (e.raw + e.trail)
  }

  predicate GoodElem(e: Elem) {
    && AllWS(e.lead) && AllWS(e.trail)
    && |e.raw| > 0 && e.raw[0] == '"' && Str(e.raw).Text? && Str(e.raw).n == |e.raw| && Str(e.raw).text == e.text
  }

  predicate AllGood(list: seq<Elem>) {
    forall e :: e in list ==> GoodElem(e)
  }

  function JoinElems(list: seq<Elem>): string {
    if |list| == 0 then ""
    else if |list| == 1 then ElemText(list[0])
    else ElemText(list[0]) + ([','] + JoinElems(list[1..]))
  }

  datatype OneRead = BadElem | OneRead(el: Elem, end: nat)

  /** One string and the comma or bracket after it. */
  function OneString(s: string): (r: OneRead)
    ensures r.OneRead? ==> r.end < |s| && (s[r.end] == ',' || s[r.end] == ']')
  {
    var a := WS(s);
    if a >= |s| || s[a] != '"' || Str(s[a..]).BadText? then BadElem
    else
      var e := a + Str(s[a..]).n;
      var g := AfterElement(s, e);
      if g.NoSpan? then BadElem else OneRead(Elem(s[..a], s[a..e], s[e..g.n], Str(s[a..]).text), g.n)
  }

  /** The strings from just after the opening bracket or a comma, to past the closing bracket. */
  function StringList(s: string): (r: StringRead)
    ensures r.Strings? ==> 0 < r.n <= |s|
    decreases |s|
  {
    match OneString(s)
    case BadElem => NotStrings
    case OneRead(el, end) =>
      if s[end] == ']' then Strings(end + 1, [el])
      else
        match StringList(s[end + 1..])
        case NotStrings => NotStrings
        case Strings(n, list) => Strings(end + 1 + n, [el] + list)
  }

  /** The elements of an array value, when they are all strings. */
  function StringArray(val: string): StringRead
    requires |val| > 0
  {
    var w := WS(val[1..]);
    if 1 + w < |val| && val[1 + w] == ']' then Strings(w + 2, [])
    else
      match StringList(val[1..])
      case NotStrings => NotStrings
      case Strings(n, list) => Strings(n + 1, list)
  }

  /** An array with these elements, or with this whitespace in it when there are none. */
  function ArrayOf(pad: string, list: seq<Elem>): string {
    ['['] + ((if |list| == 0 then pad else JoinElems(list)) + [']'])
  }

  // ---- reading elements off a text ----

  lemma ElemRead(e: Elem, rest: string)
    requires GoodElem(e) && |rest| > 0 && (rest[0] == ',' || rest[0] == ']')
    ensures var s := ElemText(e) + rest;
            && WS(s) == |e.lead| && s[|e.lead|] == '"' && s[|e.lead|..] == e.raw + (e.trail + rest)
            && Str(s[|e.lead|..]) == Str(e.raw)
            && AfterElement(s, |e.lead| + |e.raw|) == Span(|ElemText(e)|) && s[|ElemText(e)|] == rest[0]
  {
    hide WS, StrTail, Str;
    var s := ElemText(e) + rest;
    Assoc(e.lead, e.raw + e.trail, rest);
    Assoc(e.raw, e.trail, rest);
    WSExact(e.lead, e.raw + (e.trail + rest));
    DropConcat(e.lead, e.raw + (e.trail + rest));
    StrExact(e.raw, e.trail + rest);
    Assoc(e.lead, e.raw, e.trail + rest);
    DropConcat(e.lead + e.raw, e.trail + rest);
    WSExact(e.trail, rest);
    assert s[|e.lead|] == e.raw[0];
    assert s[|e.lead| + |e.raw| + |e.trail|] == rest[0];
  }

  lemma ElemSlices(e: Elem, rest: string)
    ensures var s := ElemText(e) + rest;
            var b := |e.lead| + |e.raw|;
            s[..|e.lead|] == e.lead && s[|e.lead|..b] == e.raw && s[b..b + |e.trail|] == e.trail && |ElemText(e)| == b + |e.trail|
  {
    Assoc(e.lead, e.raw + e.trail, rest);
    Assoc(e.raw, e.trail, rest);
    Mid(e.lead, e.raw, e.trail + rest);
    Assoc(e.lead, e.raw, e.trail + rest);
    Mid(e.lead + e.raw, e.trail, rest);
  }

  lemma OneStringIs(e: Elem, rest: string)
    requires GoodElem(e) && |rest| > 0 && (rest[0] == ',' || rest[0] == ']')
    ensures OneString(ElemText(e) + rest) == OneRead(e, |ElemText(e)|)
  {
    hide WS, AfterElement, Str;
    ElemRead(e, rest);
    ElemSlices(e, rest);
  }

  /** One good element and what follows it. */
  lemma OneStringExact(e: Elem, rest: string)
    requires GoodElem(e) && |rest| > 0 && (rest[0] == ',' || rest[0] == ']')
    ensures var s := ElemText(e) + rest;
            if rest[0] == ']' then StringList(s) == Strings(|ElemText(e)| + 1, [e])
            else
              var r := StringList(rest[1..]);
              StringList(s) == if r.NotStrings? then NotStrings else Strings(|ElemText(e)| + 1 + r.n, [e] + r.list)
  {
    hide OneString, GoodElem, ElemText;
    var s := ElemText(e) + rest;
    OneStringIs(e, rest);
    DropConcat(ElemText(e), rest);
    assert s[|ElemText(e)| + 1..] == rest[1..];
    assert s[|ElemText(e)|] == rest[0];
  }

  /** Good elements joined by commas are read back as themselves. */
  lemma {:induction false} StringsExact(list: seq<Elem>, rest: string)
    requires |list| > 0 && AllGood(list)
    ensures StringList(JoinElems(list) + ([']'] + rest)) == Strings(|JoinElems(list)| + 1, list)
    decreases |list|
  {
    hide StringList, GoodElem, ElemText;
    var e := list[0];
    assert e in list;
    if |list| == 1 {
      OneStringExact(e, [']'] + rest);
      assert [e] == list;
    } else {
      var after := JoinElems(list[1..]) + ([']'] + rest);
      JoinSplit(e, list[1..], rest);
      OneStringExact(e, [','] + after);
      assert ([','] + after)[1..] == after;
      assert forall x :: x in list[1..] ==> x in list;
      StringsExact(list[1..], rest);
      assert [e] + list[1..] == list;
    }
  }

  lemma JoinSplit(e: Elem, more: seq<Elem>, rest: string)
    ensures (ElemText(e) + ([','] + JoinElems(more))) + ([']'] + rest) ==
            ElemText(e) + ([','] + (JoinElems(more) + ([']'] + rest)))
  {
    hide ElemText, JoinElems;
    Assoc(ElemText(e), [','] + JoinElems(more), [']'] + rest);
    Assoc([','], JoinElems(more), [']'] + rest);
  }

  /** So are they as elements of an array: strings, no objects, no repeated keys. */
  lemma {:induction false} ElementsExact(list: seq<Elem>, depth: nat, rest: string)
    requires |list| > 0 && AllGood(list)
    ensures ElementList(JoinElems(list) + ([']'] + rest), depth) == Elements(|JoinElems(list)| + 1, false)
    decreases |list|
  {
    hide ElementList, Value, GoodElem, ElemText;
    var e := list[0];
    assert e in list;
    if |list| == 1 {
      OneElementExact(e, depth, [']'] + rest);
    } else {
      var after := JoinElems(list[1..]) + ([']'] + rest);
      JoinSplit(e, list[1..], rest);
      OneElementExact(e, depth, [','] + after);
      assert ([','] + after)[1..] == after;
      assert forall x :: x in list[1..] ==> x in list;
      ElementsExact(list[1..], depth, rest);
    }
  }

  lemma OneElementExact(e: Elem, depth: nat, rest: string)
    requires GoodElem(e) && |rest| > 0 && (rest[0] == ',' || rest[0] == ']')
    ensures var s := ElemText(e) + rest;
            if rest[0] == ']' then ElementList(s, depth) == Elements(|ElemText(e)| + 1, false)
            else
              var r := ElementList(rest[1..], depth);
              ElementList(s, depth) == if r.BadElements? then BadElements else Elements(|ElemText(e)| + 1 + r.n, r.dup)
  {
    hide WS, AfterElement, Str, ElementList, Value;
    var s := ElemText(e) + rest;
    ElemRead(e, rest);
    ElementsOpen(s, depth);
    StringValue(s[|e.lead|..], depth);
    DropConcat(ElemText(e), rest);
    assert s[|ElemText(e)| + 1..] == rest[1..];
  }

  lemma StringValue(s: string, depth: nat)
    requires |s| > 0 && s[0] == '"' && Str(s).Text?
    ensures Value(s, depth) == Val(Str(s).n, KString, Str(s).text, Str(s).plain, false)
  {
    hide Str;
  }

  /** An array of good elements is an array value, and its strings are those elements. */
  lemma ArrayExact(pad: string, list: seq<Elem>)
    requires AllWS(pad) && AllGood(list)
    ensures var val := ArrayOf(pad, list);
            && Value(val, 1) == Val(|val|, KArray, "", true, false)
            && StringArray(val) == Strings(|val|, list)
  {
    hide Value, Array, ElementList, WS, StringList, JoinElems, GoodElem;
    var val := ArrayOf(pad, list);
    ArrayOpens(val, 2);
    ArrayValue(val, 1);
    if |list| == 0 {
      assert val[1..] == pad + [']'];
      WSExact(pad, [']']);
    } else {
      assert val[1..] == JoinElems(list) + ([']'] + "") by { assert [']'] + "" == [']']; }
      StringsExact(list, "");
      ElementsExact(list, 2, "");
      StringsStart(val[1..]);
    }
  }

  lemma ArrayValue(val: string, depth: nat)
    requires |val| > 0 && val[0] == '['
    ensures var a := Array(val, depth + 1);
            Value(val, depth) == if a.BadElements? then BadVal else Val(a.n, KArray, "", true, a.dup)
  {
    hide Array;
  }

  lemma StringsStart(s: string)
    requires StringList(s).Strings?
    ensures WS(s) < |s| && s[WS(s)] == '"'
  {
    hide WS, AfterElement, Str;
  }

  /** Strings that are read are good elements joined by commas. */
  lemma {:induction false} StringsSound(s: string)
    requires StringList(s).Strings?
    ensures var r := StringList(s); |r.list| > 0 && AllGood(r.list) && s[..r.n] == JoinElems(r.list) + [']']
    decreases |s|
  {
    hide GoodElem, ElemText, OneString;
    var one := OneString(s);
    var r := StringList(s);
    ElemSound(s);
    if s[one.end] == ']' {
      assert s[..one.end + 1] == s[..one.end] + [']'];
    } else {
      var rest := s[one.end + 1..];
      var m := StringList(rest);
      StringsSound(rest);
      assert r.list[1..] == m.list;
      assert s[..r.n] == s[..one.end] + ([','] + rest[..m.n]);
      Assoc([','], JoinElems(m.list), [']']);
      Assoc(ElemText(one.el), [','] + JoinElems(m.list), [']']);
    }
  }

  lemma ThreeParts<T>(s: seq<T>, a: nat, e: nat, g: nat)
    requires a <= e <= g <= |s|
    ensures s[..g] == s[..a] + (s[a..e] + s[e..g])
  {
  }

  lemma ElemSound(s: string)
    requires OneString(s).OneRead?
    ensures var r := OneString(s); GoodElem(r.el) && s[..r.end] == ElemText(r.el)
  {
    hide WS, StrTail;
    var a := WS(s);
    var e, g := a + Str(s[a..]).n, OneString(s).end;
    var raw := s[a..e];
    Sub(s, a, e);
    Sub(s, e, g);
    QuotedLocal(s[a..], raw, e - a);
    ThreeParts(s, a, e, g);
  }

  /** The whitespace inside an array that has no elements. */
  function PadOf(val: string): string
    requires |val| > 0
  {
    var w := WS(val[1..]);
    if 1 + w < |val| && val[1 + w] == ']' then val[1..1 + w] else ""
  }

  lemma EmptyArraySound(val: string)
    requires |val| > 0 && val[0] == '[' && Value(val, 1).Val? && Value(val, 1).n == |val|
    requires var w := WS(val[1..]); 1 + w < |val| && val[1 + w] == ']'
    ensures StringArray(val) == Strings(|val|, []) && AllWS(PadOf(val)) && val == ArrayOf(PadOf(val), [])
  {
    hide Value, Array, ElementList, StringList, WS;
    ArrayValue(val, 1);
    NestingKept(val, 1);
    ArrayOpens(val, 2);
    var w := WS(val[1..]);
    assert val[1..][..w] == val[1..1 + w];
  }

  lemma FullArraySound(val: string)
    requires |val| > 0 && val[0] == '[' && Value(val, 1).Val? && Value(val, 1).n == |val| && StringArray(val).Strings?
    requires var w := WS(val[1..]); !(1 + w < |val| && val[1 + w] == ']')
    ensures StringArray(val).n == |val| && |StringArray(val).list| > 0 && AllGood(StringArray(val).list)
    ensures val == ArrayOf("", StringArray(val).list)
  {
    hide Value, Array, ElementList, StringList, WS, GoodElem, JoinElems;
    var r := StringList(val[1..]);
    ArrayValue(val, 1);
    NestingKept(val, 1);
    ArrayOpens(val, 2);
    StringsAreElements(val[1..]);
    StringsSound(val[1..]);
    assert val[1..][..r.n] == val[1..];
    assert val == ['['] + val[1..];
  }

  /** A list of strings that is a whole value is that value's text. */
  lemma StringArraySound(val: string)
    requires |val| > 0 && val[0] == '[' && Value(val, 1).Val? && Value(val, 1).n == |val| && StringArray(val).Strings?
    ensures StringArray(val).n == |val| && AllGood(StringArray(val).list)
    ensures AllWS(PadOf(val)) && val == ArrayOf(PadOf(val), StringArray(val).list)
  {
    hide Value, StringList, WS, GoodElem, JoinElems;
    var w := WS(val[1..]);
    if 1 + w < |val| && val[1 + w] == ']' {
      EmptyArraySound(val);
    } else {
      FullArraySound(val);
    }
  }

  /** As many bytes are read whether the elements are asked to be strings or not. */
  lemma StringsAreElements(s: string)
    requires StringList(s).Strings?
    ensures ElementList(s, 2).Elements? && ElementList(s, 2).n == StringList(s).n
  {
    hide ElementList, StringList, GoodElem, JoinElems;
    StringsSound(s);
    var r := StringList(s);
    ElementsExact(r.list, 2, s[r.n..]);
    assert s == s[..r.n] + s[r.n..];
    Assoc(JoinElems(r.list), [']'], s[r.n..]);
  }
}
