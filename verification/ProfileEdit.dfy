/**
The repair of a profile's interface blacklist and external-address list: which names are
missing, where the text is spliced, and what the edited profile then holds.
*/
module ProfileEdit {
  import opened Json
  import opened JsonLocal
  import opened Profile
  import opened Blacklist
  import opened Splice

  const LIST_KEY := "IFaceBlackList"
  const LIST_FIELD := "ifaceblacklist"
  const MAP_FIELD := "natexternalips"

  // ---- fields by name ----

  function Lower(c: char): char {
    if 'A' <= c <= 'Z' then (c as int + 32) as char else c
  }

  function LowerName(s: string): (t: string)
    ensures |t| == |s|
  {
    seq(|s|, i requires 0 <= i < |s| => Lower(s[i]))
  }

  predicate Named(p: Piece, field: string) {
    p.plain && LowerName(p.name) == field
  }

  /** The first member with the name in any ASCII case, or the length. */
  function Find(list: seq<Piece>, field: string): (i: nat)
    ensures i <= |list|
    ensures i < |list| ==> Named(list[i], field)
    ensures forall j :: 0 <= j < i ==> !Named(list[j], field)
  {
    if |list| == 0 then 0 else if Named(list[0], field) then 0 else 1 + Find(list[1..], field)
  }

  /** No other member has the name. */
  predicate Once(list: seq<Piece>, field: string) {
    forall i, j :: 0 <= i < j < |list| ==> !(Named(list[i], field) && Named(list[j], field))
  }

  /** What a field that should be a list of strings holds. */
  datatype ListState = Absent | EmptyList(i: nat) | Full(i: nat, list: seq<Elem>) | Wrong

  function FieldOf(list: seq<Piece>, field: string): ListState {
    var i := Find(list, field);
    if i == |list| then Absent
    else if list[i].kind == KNull then EmptyList(i)
    else if list[i].kind == KArray && |list[i].val| > 0 then
      (match StringArray(list[i].val)
       case NotStrings => Wrong
       case Strings(_, es) => if |es| == 0 then EmptyList(i) else Full(i, es))
    else Wrong
  }

  function EntriesOf(st: ListState): seq<string> {
    if st.Full? then Texts(st.list) else []
  }

  // ---- which names are missing ----

  /** NetBird's filter drops an interface when an entry is a prefix of its name. */
  predicate Covers(entries: seq<string>, name: string) {
    exists e :: e in entries && e != "" && e <= name
  }

  /** Some prefix of the name, not empty, is an entry. */
  predicate Excluded(entries: seq<string>, name: string) {
    exists k :: 0 < k <= |name| && name[..k] in entries
  }

  lemma CoversIff(entries: seq<string>, name: string)
    ensures Covers(entries, name) <==> Excluded(entries, name)
  {
    if Covers(entries, name) {
      var e :| e in entries && e != "" && e <= name;
      assert name[..|e|] == e;
    }
    if Excluded(entries, name) {
      var k :| 0 < k <= |name| && name[..k] in entries;
      assert name[..k] <= name && name[..k] != "";
    }
  }

  /** The names no entry covers, once each. */
  function Missing(entries: seq<string>, names: seq<string>): (add: seq<string>)
    ensures forall n :: n in add <==> n in names && !Covers(entries, n)
  {
    if |names| == 0 then []
    else
      var before := Missing(entries, names[..|names| - 1]);
      var n := names[|names| - 1];
      if !Covers(entries, n) && n !in before then before + [n] else before
  }

  /** A name is added exactly if no prefix of it is an entry, once, in the order the names first come. */
  method FindMissing(entries: seq<string>, names: seq<string>) returns (add: seq<string>)
    ensures add == Missing(entries, names)
    ensures forall n :: n in add <==> n in names && !Excluded(entries, n)
    ensures InOrder(names, add)
  {
    add := [];
    for i := 0 to |names|
      invariant add == Missing(entries, names[..i])
    {
      assert names[..i + 1][..i] == names[..i];
      if !Covers(entries, names[i]) && names[i] !in add {
        add := add + [names[i]];
      }
    }
    assert names[..|names|] == names;
    MissingIff(entries, names);
    MissingInOrder(entries, names);
  }

  /** Where the name first comes, or the number of names. */
  function FirstOf(names: seq<string>, n: string): nat {
    if |names| == 0 || names[0] == n then 0 else 1 + FirstOf(names[1..], n)
  }

  lemma {:induction false} FirstOfSnoc(names: seq<string>, n: string, last: string)
    ensures FirstOf(names + [last], n) ==
            if n in names then FirstOf(names, n) else if n == last then |names| else |names| + 1
    ensures n in names ==> FirstOf(names, n) < |names|
  {
    if |names| > 0 {
      assert (names + [last])[1..] == names[1..] + [last];
      FirstOfSnoc(names[1..], n, last);
    } else {
      assert [last][1..] == [];
    }
  }

  lemma MissingIff(entries: seq<string>, names: seq<string>)
    ensures forall n :: n in Missing(entries, names) <==> n in names && !Excluded(entries, n)
  {
    hide Covers, Excluded;
    forall n
      ensures Covers(entries, n) <==> Excluded(entries, n)
    {
      CoversIff(entries, n);
    }
  }

  /** No name twice, and each where its name first comes. */
  ghost predicate InOrder(names: seq<string>, add: seq<string>) {
    forall i, j :: 0 <= i < j < |add| ==> add[i] != add[j] && FirstOf(names, add[i]) < FirstOf(names, add[j])
  }

  lemma {:induction false} MissingInOrder(entries: seq<string>, names: seq<string>)
    ensures InOrder(names, Missing(entries, names))
  {
    hide Covers, InOrder;
    if |names| > 0 {
      var init, last := names[..|names| - 1], names[|names| - 1];
      assert names == init + [last];
      MissingInOrder(entries, init);
      StaysInOrder(init, last, Missing(entries, init));
      OnlyNew(entries, init, last);
    } else {
      NothingInOrder();
    }
  }

  lemma NothingInOrder()
    ensures InOrder([], [])
  {
  }

  lemma StaysInOrder(init: seq<string>, last: string, add: seq<string>)
    requires InOrder(init, add) && forall n :: n in add ==> n in init
    ensures InOrder(init + [last], add) && (last !in init ==> InOrder(init + [last], add + [last]))
  {
    forall n
      ensures n in init ==> FirstOf(init + [last], n) == FirstOf(init, n) < |init|
      ensures last !in init ==> FirstOf(init + [last], last) == |init|
    {
      FirstOfSnoc(init, n, last);
      FirstOfSnoc(init, last, last);
    }
    assert forall i :: 0 <= i < |add| ==> add[i] in add;
  }

  /** A name that is added last was not among the names before. */
  lemma OnlyNew(entries: seq<string>, init: seq<string>, last: string)
    ensures !Covers(entries, last) && last !in Missing(entries, init) ==> last !in init
  {
    hide Covers;
  }

  /** The list with the added names that are not in it. */
  function WithEntries(list: seq<string>, add: seq<string>): (out: seq<string>)
    ensures |out| >= |list| && out[..|list|] == list
    ensures forall n :: n in out <==> n in list || n in add
    decreases |add|
  {
    if |add| == 0 then list
    else WithEntries(if add[0] in list then list else list + [add[0]], add[1..])
  }

  lemma CoversItself(entries: seq<string>, name: string)
    requires name in entries && name != ""
    ensures Covers(entries, name)
  {
  }

  // ---- style ----

  /** The run of whitespace that ends at pos. */
  function LeadBefore(data: string, pos: nat): string
    requires pos <= |data|
  {
    if pos > 0 && IsWS(data[pos - 1]) then LeadBefore(data, pos - 1) + [data[pos - 1]] else ""
  }

  method RunLeadBefore(data: string, pos: nat) returns (lead: string)
    requires pos <= |data|
    ensures lead == LeadBefore(data, pos)
  {
    var i := pos;
    while i > 0 && IsWS(data[i - 1])
      invariant 0 <= i <= pos
      invariant LeadBefore(data, pos) == LeadBefore(data, i) + data[i..pos]
    {
      assert data[i - 1..pos] == [data[i - 1]] + data[i..pos];
      i := i - 1;
    }
    assert "" + data[i..pos] == data[i..pos];
    lead := data[i..pos];
  }

  lemma {:induction false} LeadExact(a: string, w: string, b: string)
    requires AllWS(w) && (|a| > 0 ==> !IsWS(a[|a| - 1]))
    ensures LeadBefore(a + (w + b), |a| + |w|) == w
    decreases |w|
  {
    var data := a + (w + b);
    if |w| > 0 {
      var n := |w| - 1;
      var init := w[..n];
      assert w[n] in w && forall c :: c in init ==> c in w;
      assert w + b == init + ([w[n]] + b);
      LeadExact(a, init, [w[n]] + b);
      assert data[|a| + n] == w[n];
      assert init + [w[n]] == w;
    }
  }

  /** The indentation of the first member when it starts a line, else four spaces. */
  function UnitOf(list: seq<Piece>): string {
    if |list| == 0 then "    "
    else
      var lead := list[0].lead;
      var at := LastLine(lead);
      if at.Span? && at.n < |lead| then lead[at.n..] else "    "
  }

  /** Whether the first member has whitespace around its colon. */
  function SepOf(list: seq<Piece>): string {
    if |list| == 0 then " "
    else if ' ' in list[0].colon || '\t' in list[0].colon || '\n' in list[0].colon then " "
    else ""
  }

  lemma StyleIsWS(list: seq<Piece>)
    requires AllWellFormed(list, 1)
    ensures AllWS(UnitOf(list)) && AllWS(SepOf(list))
  {
    if |list| > 0 {
      assert list[0] in list;
      LastLineWithin(list[0].lead);
    }
  }

  // ---- where things stand ----

  /** The members' text before member i. */
  function BeforeMember(list: seq<Piece>, i: nat): string
    requires i < |list|
  {
    if i == 0 then "" else PieceText(list[0]) + ([','] + BeforeMember(list[1..], i - 1))
  }

  lemma {:induction false} BeforeValIs(list: seq<Piece>, i: nat)
    requires i < |list|
    ensures BeforeVal(list, i) == BeforeMember(list, i) + KeyText(list[i])
    ensures i > 0 ==> |BeforeMember(list, i)| > 0 && BeforeMember(list, i)[|BeforeMember(list, i)| - 1] == ','
  {
    hide PieceText, KeyText;
    if i > 0 {
      BeforeValIs(list[1..], i - 1);
      Assoc([','], BeforeMember(list[1..], i - 1), KeyText(list[i]));
      Assoc(PieceText(list[0]), [','] + BeforeMember(list[1..], i - 1), KeyText(list[i]));
    } else {
      assert "" + KeyText(list[0]) == KeyText(list[0]);
    }
  }

  function KeyStart(r: Scanned, i: nat): nat
    requires r.Root? && i < |r.list|
  {
    |r.before| + 1 + |BeforeMember(r.list, i)| + |r.list[i].lead|
  }

  /** The whitespace before a key is what its member starts with. */
  lemma MemberLead(r: Scanned, i: nat)
    requires r.Root? && WellFormedRoot(r) && i < |r.list|
    ensures KeyStart(r, i) <= |RootText(r)| && LeadBefore(RootText(r), KeyStart(r, i)) == r.list[i].lead
  {
    hide JoinPieces, PieceText, LeadBefore, WellFormed;
    var p := r.list[i];
    assert p in r.list;
    LeadIsWS(p);
    var b, rest := BeforeMember(r.list, i), p.val + TailText(r, i);
    RootAround(r, i);
    BeforeValIs(r.list, i);
    var a := r.before + (['{'] + b);
    Assoc(['{'], b, KeyText(p));
    Assoc(r.before, ['{'] + b, KeyText(p));
    Assoc(a, KeyText(p), rest);
    Assoc(p.lead, p.key + p.colon, rest);
    LeadExact(a, p.lead, (p.key + p.colon) + rest);
  }

  lemma LeadIsWS(p: Piece)
    requires WellFormed(p, 1)
    ensures AllWS(p.lead) && AllWS(p.trail) && IsColon(p.colon)
  {
  }

  /** The elements' text before the last. */
  function BeforeLast(list: seq<Elem>): string
    requires |list| > 0
  {
    if |list| == 1 then "" else ElemText(list[0]) + ([','] + BeforeLast(list[1..]))
  }

  lemma {:induction false} LastElem(list: seq<Elem>)
    requires |list| > 0
    ensures JoinElems(list) == BeforeLast(list) + ElemText(list[|list| - 1])
    ensures |list| > 1 ==> |BeforeLast(list)| > 0 && BeforeLast(list)[|BeforeLast(list)| - 1] == ','
  {
    hide ElemText;
    if |list| > 1 {
      LastElem(list[1..]);
      var b, e := BeforeLast(list[1..]), ElemText(list[|list| - 1]);
      Assoc([','], b, e);
      Assoc(ElemText(list[0]), [','] + b, e);
    } else {
      assert "" + ElemText(list[0]) == ElemText(list[0]);
    }
  }

  /** Where the last element of a list starts, counted from the start of the value. */
  function LastStart(list: seq<Elem>): nat
    requires |list| > 0
  {
    1 + |BeforeLast(list)| + |list[|list| - 1].lead|
  }

  /** The whitespace before the last element is what it starts with. */
  lemma ElemLead(before: string, list: seq<Elem>, after: string)
    requires |list| > 0 && AllWS(list[|list| - 1].lead)
    ensures var data := before + (ArrayOf("", list) + after);
            && |before| + LastStart(list) <= |data|
            && LeadBefore(data, |before| + LastStart(list)) == list[|list| - 1].lead
  {
    hide JoinElems, LeadBefore;
    var e, b := list[|list| - 1], BeforeLast(list);
    LastElem(list);
    var a := before + (['['] + b);
    var rest := (e.raw + e.trail) + ([']'] + after);
    Assoc(b, ElemText(e), [']']);
    Assoc(['['], b, ElemText(e) + [']']);
    Assoc(['['] + b, ElemText(e) + [']'], after);
    Assoc(ElemText(e), [']'], after);
    Assoc(e.lead, e.raw + e.trail, [']'] + after);
    Assoc(before, ['['] + b, e.lead + rest);
    assert before + (ArrayOf("", list) + after) == a + (e.lead + rest);
    LeadExact(a, e.lead, rest);
  }

  // ---- a member at the end ----

  function BareLast(list: seq<Piece>): seq<Piece>
    requires |list| > 0
  {
    list[|list| - 1 := list[|list| - 1].(trail := "")]
  }

  lemma {:induction false} MembersSnoc(list: seq<Piece>, p: Piece)
    requires |list| > 0
    ensures JoinPieces(list + [p]) == JoinPieces(list) + ([','] + PieceText(p))
  {
    hide PieceText;
    var all := list + [p];
    assert all[1..] == list[1..] + [p];
    if |list| > 1 {
      MembersSnoc(list[1..], p);
      Assoc([','], JoinPieces(list[1..]), [','] + PieceText(p));
      Assoc(PieceText(list[0]), [','] + JoinPieces(list[1..]), [','] + PieceText(p));
    } else {
      assert all[1..] == [p];
    }
  }

  lemma {:induction false} BareLastText(list: seq<Piece>)
    requires |list| > 0
    ensures JoinPieces(list) == JoinPieces(BareLast(list)) + list[|list| - 1].trail
    ensures |JoinPieces(BareLast(list))| == |BeforeVal(list, |list| - 1)| + |list[|list| - 1].val|
  {
    hide KeyText;
    if |list| == 1 {
      var p := list[0];
      PieceAround(p, "");
      PieceAround(p.(trail := ""), "");
      assert KeyText(p.(trail := "")) == KeyText(p) by { KeyTextSame(p); }
      assert p.val + "" == p.val;
      Assoc(KeyText(p), p.val, p.trail);
    } else {
      assert BareLast(list)[1..] == BareLast(list[1..]);
      BareLastText(list[1..]);
      var last := list[|list| - 1];
      assert list[1..][|list| - 2] == last;
      Assoc([','], JoinPieces(BareLast(list[1..])), last.trail);
      Assoc(PieceText(list[0]), [','] + JoinPieces(BareLast(list[1..])), last.trail);
    }
  }

  lemma KeyTextSame(p: Piece)
    ensures KeyText(p.(trail := "")) == KeyText(p)
  {
  }

  /** The list's member as it is written at the end of the root. */
  function NewMember(lead: string, colon: string, val: string, trail: string): Piece {
    Piece(lead, Quote(LIST_KEY), colon, val, trail, LIST_KEY, true, KArray, "", true, false)
  }

  function MemberText(lead: string, colon: string, val: string): string {
    lead + (Quote(LIST_KEY) + (colon + val))
  }

  function Appended(r: Scanned, lead: string, colon: string, val: string): Scanned
    requires r.Root? && |r.list| > 0
  {
    r.(list := BareLast(r.list) + [NewMember(lead, colon, val, r.list[|r.list| - 1].trail)])
  }

  /** Inserting a member's text after the last value is appending the member. */
  lemma InsertIsMember(r: Scanned, lead: string, colon: string, val: string)
    requires r.Root? && |r.list| > 0
    ensures var data := RootText(r);
            var at := ValEnd(r, |r.list| - 1);
            && at <= |data|
            && data[..at] + (([','] + MemberText(lead, colon, val)) + data[at..]) == RootText(Appended(r, lead, colon, val))
            && data == data[..at] + data[at..] && |data[at..]| > 0
            && data[at..] == r.list[|r.list| - 1].trail + (['}'] + r.after)
  {
    hide JoinPieces, PieceText, Quote;
    var k := |r.list| - 1;
    var trail, end := r.list[k].trail, ['}'] + r.after;
    var bare := JoinPieces(BareLast(r.list));
    var p := NewMember(lead, colon, val, trail);
    var text := MemberText(lead, colon, val);
    BareLastText(r.list);
    MembersSnoc(BareLast(r.list), p);
    NewMemberText(lead, colon, val, trail);
    var x := r.before + (['{'] + bare);
    Assoc(bare, trail, end);
    Assoc(['{'], bare, trail + end);
    Assoc(r.before, ['{'] + bare, trail + end);
    DropConcat(x, trail + end);
    Assoc([','], text, trail);
    Assoc(bare, ([','] + text) + trail, end);
    Assoc([','] + text, trail, end);
    Assoc(['{'], bare, ([','] + text) + (trail + end));
    Assoc(r.before, ['{'] + bare, ([','] + text) + (trail + end));
  }

  lemma NewMemberText(lead: string, colon: string, val: string, trail: string)
    ensures PieceText(NewMember(lead, colon, val, trail)) == MemberText(lead, colon, val) + trail
  {
    hide Quote;
    var q := Quote(LIST_KEY);
    Assoc(colon, val, trail);
    Assoc(q, colon + val, trail);
    Assoc(lead, q + (colon + val), trail);
  }

  // ---- reading an appended member back ----

  predicate AllPlainKeys(list: seq<Piece>) {
    forall p :: p in list ==> p.plain
  }

  lemma ListKeyLower()
    ensures LowerName(LIST_KEY) == LIST_FIELD && PlainName(LIST_KEY)
  {
    assert |LIST_KEY| == |LIST_FIELD| == 14;
    assert forall i :: 0 <= i < 14 ==> Lower(LIST_KEY[i]) == LIST_FIELD[i];
  }

  lemma KeyIsNew(list: seq<Piece>, p: Piece)
    requires AllPlainKeys(list) && Find(list, LIST_FIELD) == |list| && p in list
    ensures p.name != LIST_KEY
  {
    ListKeyLower();
    var i :| 0 <= i < |list| && list[i] == p;
    assert !Named(list[i], LIST_FIELD);
  }

  lemma {:induction false} SnocNoRepeat(list: seq<Piece>, p: Piece, seen: set<string>)
    requires !Repeats(list, seen) && !p.dup && p.name !in seen && (forall x :: x in list ==> x.name != p.name)
    ensures !Repeats(list + [p], seen)
  {
    var all := list + [p];
    if |list| > 0 {
      assert list[0] in list;
      assert all[1..] == list[1..] + [p];
      SnocNoRepeat(list[1..], p, seen + {list[0].name});
    } else {
      assert all[1..] == [];
    }
  }

  lemma {:induction false} BareNoRepeat(list: seq<Piece>, seen: set<string>)
    requires |list| > 0 && !Repeats(list, seen)
    ensures !Repeats(BareLast(list), seen)
  {
    if |list| > 1 {
      assert BareLast(list)[1..] == BareLast(list[1..]);
      BareNoRepeat(list[1..], seen + {list[0].name});
    } else {
      assert BareLast(list)[1..] == [] == list[1..];
    }
  }

  lemma NewMemberWellFormed(lead: string, colon: string, val: string, trail: string)
    requires AllWS(lead) && AllWS(trail) && IsColon(colon) && Value(val, 1) == Val(|val|, KArray, "", true, false)
    ensures WellFormed(NewMember(lead, colon, val, trail), 1)
  {
    hide Value, IsColon, Str;
    ListKeyLower();
    QuoteReads(LIST_KEY);
  }

  lemma BareWellFormed(p: Piece)
    requires WellFormed(p, 1)
    ensures WellFormed(p.(trail := ""), 1)
  {
    hide Value, IsColon, Str;
  }

  /** The members kept, the last without its trailing whitespace, are whole and not the list's. */
  lemma BareGood(list: seq<Piece>)
    requires |list| > 0 && AllWellFormed(list, 1) && AllPlainKeys(list) && Find(list, LIST_FIELD) == |list|
    ensures forall x :: x in BareLast(list) ==> WellFormed(x, 1) && x.name != LIST_KEY
  {
    hide WellFormed, Find, BareLast, AllPlainKeys;
    var bare := BareLast(list);
    forall x | x in bare
      ensures WellFormed(x, 1) && x.name != LIST_KEY
    {
      var i :| 0 <= i < |bare| && bare[i] == x;
      BareAt(list, i);
      assert list[i] in list;
      BareWellFormed(list[i]);
      KeyIsNew(list, list[i]);
    }
  }

  lemma BareAt(list: seq<Piece>, i: nat)
    requires |list| > 0
    ensures |BareLast(list)| == |list|
    ensures i < |list| ==> BareLast(list)[i] == list[i] || BareLast(list)[i] == list[i].(trail := "")
  {
  }

  lemma AppendedWellFormed(r: Scanned, lead: string, colon: string, val: string)
    requires r.Root? && |r.list| > 0 && WellFormedRoot(r) && !r.dup && AllWS(lead) && IsColon(colon)
    requires Value(val, 1) == Val(|val|, KArray, "", true, false)
    requires AllPlainKeys(r.list) && Find(r.list, LIST_FIELD) == |r.list|
    ensures Appended(r, lead, colon, val).Root? && WellFormedRoot(Appended(r, lead, colon, val))
  {
    hide Value, WellFormed, IsColon, Find, Repeats, AllPlainKeys, BareLast;
    var last, bare := r.list[|r.list| - 1], BareLast(r.list);
    assert last in r.list;
    LeadIsWS(last);
    var p := NewMember(lead, colon, val, last.trail);
    NewMemberWellFormed(lead, colon, val, last.trail);
    BareGood(r.list);
    BareNoRepeat(r.list, {});
    SnocNoRepeat(bare, p, {});
  }

  lemma WSAscii(w: string)
    requires AllWS(w)
    ensures Ascii(w)
  {
  }

  lemma ColonAscii(c: string)
    requires IsColon(c)
    ensures Ascii(c)
  {
    var w := WS(c);
    forall x | x in c
      ensures 0 < x as int < 0x80
    {
      var i :| 0 <= i < |c| && c[i] == x;
      if i < w {
        assert x in c[..w];
      } else if i > w {
        assert c[w + 1..][i - w - 1] == x;
        assert x in c[w + 1..];
      }
    }
  }

  lemma MemberTextAscii(lead: string, colon: string, val: string)
    requires AllWS(lead) && IsColon(colon) && Ascii(val)
    ensures Ascii(MemberText(lead, colon, val)) && Ascii([','] + MemberText(lead, colon, val))
  {
    hide IsColon, Quote;
    WSAscii(lead);
    ColonAscii(colon);
    ListKeyLower();
    QuoteReads(LIST_KEY);
  }

  /** After a member is written behind the last one, reading the text again gives the same
      members and the new one. */
  lemma AppendedReads(r: Scanned, lead: string, colon: string, val: string)
    requires r.Root? && |r.list| > 0 && WellFormedRoot(r) && !r.dup && AllWS(lead) && IsColon(colon)
    requires Value(val, 1) == Val(|val|, KArray, "", true, false) && Ascii(val) && CleanText(RootText(r))
    requires AllPlainKeys(r.list) && Find(r.list, LIST_FIELD) == |r.list|
    ensures var data := RootText(r);
            var at := ValEnd(r, |r.list| - 1);
            at <= |data| && Scan(data[..at] + (([','] + MemberText(lead, colon, val)) + data[at..])) == Appended(r, lead, colon, val)
  {
    hide Value, IsColon, Find, CleanText, Ascii, RootText, Scan, ValEnd, MemberText, WellFormedRoot, AllPlainKeys, AllWS, Appended;
    var data := RootText(r);
    var at := ValEnd(r, |r.list| - 1);
    InsertIsMember(r, lead, colon, val);
    AppendedWellFormed(r, lead, colon, val);
    MemberTextAscii(lead, colon, val);
    BehindLastAscii(r, data[at..]);
    assert data[at] == data[at..][0];
    InsertClean(data, at, [','] + MemberText(lead, colon, val));
    ScanExact(Appended(r, lead, colon, val));
  }

  lemma BehindLastAscii(r: Scanned, rest: string)
    requires r.Root? && |r.list| > 0 && WellFormedRoot(r) && rest == r.list[|r.list| - 1].trail + (['}'] + r.after)
    ensures |rest| > 0 && rest[0] as int < 0x80
  {
    hide WellFormedRoot;
    LastMember(r);
    TrailDelim(r.list[|r.list| - 1].trail, ['}'] + r.after);
  }

  // ---- an empty root ----

  function Filled(r: Scanned, lead: string, colon: string, val: string): Scanned
    requires r.Root?
  {
    r.(pad := "", list := [NewMember(lead, colon, val, r.pad)])
  }

  lemma InsertIsFirst(r: Scanned, lead: string, colon: string, val: string)
    requires r.Root? && |r.list| == 0
    ensures var data := RootText(r);
            var at := |r.before| + 1;
            && at <= |data| && data[at..] == r.pad + (['}'] + r.after) && data == data[..at] + data[at..]
            && data[..at] + (MemberText(lead, colon, val) + data[at..]) == RootText(Filled(r, lead, colon, val))
  {
    hide PieceText, Quote, MemberText;
    var end, text := ['}'] + r.after, MemberText(lead, colon, val);
    Assoc(r.before, ['{'], r.pad + end);
    DropConcat(r.before + ['{'], r.pad + end);
    NewMemberText(lead, colon, val, r.pad);
    Assoc(text, r.pad, end);
    Assoc(r.before, ['{'], text + (r.pad + end));
  }

  lemma FilledReads(r: Scanned, lead: string, colon: string, val: string)
    requires r.Root? && |r.list| == 0 && WellFormedRoot(r) && !r.dup && AllWS(lead) && IsColon(colon)
    requires Value(val, 1) == Val(|val|, KArray, "", true, false) && Ascii(val) && CleanText(RootText(r))
    ensures var data := RootText(r);
            var at := |r.before| + 1;
            at <= |data| && Scan(data[..at] + (MemberText(lead, colon, val) + data[at..])) == Filled(r, lead, colon, val)
  {
    hide Value, IsColon, CleanText, Ascii, RootText, Scan, MemberText, WellFormed;
    var data := RootText(r);
    var at := |r.before| + 1;
    InsertIsFirst(r, lead, colon, val);
    FilledWellFormed(r, lead, colon, val);
    MemberTextAscii(lead, colon, val);
    hide WellFormedRoot, Filled, AllWS;
    PadDelim(r);
    assert data[at] == data[at..][0] && data[at] as int < 0x80;
    InsertClean(data, at, MemberText(lead, colon, val));
    ScanExact(Filled(r, lead, colon, val));
  }

  lemma PadDelim(r: Scanned)
    requires r.Root? && WellFormedRoot(r)
    ensures Delim((r.pad + (['}'] + r.after))[0]) && (r.pad + (['}'] + r.after))[0] as int < 0x80
  {
    TrailDelim(r.pad, ['}'] + r.after);
  }

  lemma FilledWellFormed(r: Scanned, lead: string, colon: string, val: string)
    requires r.Root? && |r.list| == 0 && WellFormedRoot(r) && !r.dup && AllWS(lead) && IsColon(colon)
    requires Value(val, 1) == Val(|val|, KArray, "", true, false)
    ensures WellFormedRoot(Filled(r, lead, colon, val))
  {
    hide Value, IsColon, WellFormed;
    NewMemberWellFormed(lead, colon, val, r.pad);
    SnocNoRepeat([], NewMember(lead, colon, val, r.pad), {});
    assert [] + Filled(r, lead, colon, val).list == Filled(r, lead, colon, val).list;
  }

  // ---- the edit ----

  /** A profile the repair accepts: valid, no repeated key, printable field names, and a list of
      strings, null or nothing where the blacklist stands. */
  predicate Editable(r: Scanned) {
    && r.Root? && WellFormedRoot(r) && CleanText(RootText(r)) && !r.dup && AllPlainKeys(r.list)
    && Once(r.list, LIST_FIELD) && !FieldOf(r.list, LIST_FIELD).Wrong?
  }

  function FreshText(r: Scanned, add: seq<string>, lead: string): string
    requires r.Root?
  {
    ArrayText(WithEntries(DEFAULTS, add), lead, UnitOf(r.list), SepOf(r.list))
  }

  /** The whitespace before a name that is put in: what is before the last element. */
  function ElementLead(r: Scanned, st: ListState): string
    requires r.Root? && st.Full? && |st.list| > 0
  {
    var lead := st.list[|st.list| - 1].lead;
    if lead == "" && |st.list| == 1 then SepOf(r.list) else lead
  }

  /** The whitespace a member of an empty root is put on. */
  function EmptyLead(r: Scanned): string
    requires r.Root?
  {
    if '\n' !in r.pad then "" else if HasCRLF(r.pad) then "\r\n" + UnitOf([]) else "\n" + UnitOf([])
  }

  predicate HasCRLF(s: string) {
    exists i :: 0 <= i < |s| - 1 && s[i] == '\r' && s[i + 1] == '\n'
  }

  /** The span of the text that is replaced, and what takes its place. */
  datatype Span2 = Span2(start: nat, end: nat, repl: string)

  function SpliceAt(r: Scanned, add: seq<string>): Span2
    requires Editable(r)
  {
    var st := FieldOf(r.list, LIST_FIELD);
    match st
    case Full(i, es) =>
      var at := ValStart(r, i) + InsertAt(es);
      Span2(at, at, InsText(add, ElementLead(r, st)))
    case EmptyList(i) => Span2(ValStart(r, i), ValEnd(r, i), FreshText(r, add, r.list[i].lead))
    case _ =>
      if |r.list| > 0 then
        var last := r.list[|r.list| - 1];
        var at := ValEnd(r, |r.list| - 1);
        Span2(at, at, [','] + MemberText(last.lead, last.colon, FreshText(r, add, last.lead)))
      else
        Span2(|r.before| + 1, |r.before| + 1,
              MemberText(EmptyLead(r), [':'] + SepOf(r.list), FreshText(r, add, EmptyLead(r))))
  }

  /** The edited text: the span replaced, every other byte as it was. */
  function Edit(r: Scanned, add: seq<string>): string
    requires Editable(r)
  {
    var data, sp := RootText(r), SpliceAt(r, add);
    if sp.start <= sp.end <= |data| then data[..sp.start] + (sp.repl + data[sp.end..]) else data
  }

  /** The members the edited text has. */
  function Edited(r: Scanned, add: seq<string>): Scanned
    requires Editable(r)
  {
    var st := FieldOf(r.list, LIST_FIELD);
    match st
    case Full(i, es) => WithValue(r, i, ArrayOf("", AddNames(es, ElementLead(r, st), add)))
    case EmptyList(i) => WithValue(r, i, FreshText(r, add, r.list[i].lead))
    case _ =>
      if |r.list| > 0 then
        var last := r.list[|r.list| - 1];
        Appended(r, last.lead, last.colon, FreshText(r, add, last.lead))
      else Filled(r, EmptyLead(r), [':'] + SepOf(r.list), FreshText(r, add, EmptyLead(r)))
  }

  lemma FreshReads(r: Scanned, add: seq<string>, lead: string)
    requires r.Root? && AllWellFormed(r.list, 1) && AllPlain(add) && AllWS(lead)
    ensures var val := FreshText(r, add, lead);
            && Value(val, 1) == Val(|val|, KArray, "", true, false) && Ascii(val)
            && StringArray(val).Strings? && Texts(StringArray(val).list) == WithEntries(DEFAULTS, add)
  {
    hide Value, StringArray, ArrayText, WellFormed;
    DefaultsPlain();
    StyleIsWS(r.list);
    ArrayTextReads(WithEntries(DEFAULTS, add), lead, UnitOf(r.list), SepOf(r.list));
    ArrayTextAscii(WithEntries(DEFAULTS, add), lead, UnitOf(r.list), SepOf(r.list));
  }

  lemma {:induction false} QuotedAscii(names: seq<string>, sep: string)
    requires AllPlain(names) && Ascii(sep)
    ensures Ascii(JoinQuoted(names, sep))
  {
    hide Quote;
    if |names| > 0 {
      assert names[0] in names && forall n :: n in names[1..] ==> n in names;
      QuoteReads(names[0]);
      QuotedAscii(names[1..], sep);
    }
  }

  lemma ArrayTextAscii(names: seq<string>, lead: string, unit: string, sep: string)
    requires AllPlain(names) && AllWS(lead) && AllWS(unit) && AllWS(sep)
    ensures Ascii(ArrayText(names, lead, unit, sep))
  {
    hide JoinQuoted, Ascii, AllWS, AllPlain, Spacing, ArrayText;
    var w := Spacing(lead, unit, sep);
    SpacingWS(lead, unit, sep);
    WSAscii(w.0);
    WSAscii(w.1);
    WSAscii(w.2);
    CommaAscii(w.1);
    QuotedAscii(names, [','] + w.1);
    ArrayTextSpaced(names, lead, unit, sep);
    BracketAscii(w.0, JoinQuoted(names, [','] + w.1), w.2);
  }

  lemma ArrayTextSpaced(names: seq<string>, lead: string, unit: string, sep: string)
    ensures var w := Spacing(lead, unit, sep);
            ArrayText(names, lead, unit, sep) == ['['] + (w.0 + (JoinQuoted(names, [','] + w.1) + (w.2 + [']'])))
  {
    hide JoinQuoted, LastLine;
    var at := LastLine(lead);
    if at.NoSpan? || at.n > |lead| {
      var j := JoinQuoted(names, [','] + sep);
      assert "" + (j + ("" + [']'])) == j + [']'];
    }
  }

  lemma CommaAscii(w: string)
    requires Ascii(w)
    ensures Ascii([','] + w)
  {
  }

  lemma BracketAscii(a: string, b: string, c: string)
    requires Ascii(a) && Ascii(b) && Ascii(c)
    ensures Ascii(['['] + (a + (b + (c + [']']))))
  {
  }

  lemma {:induction false} InsTextAscii(names: seq<string>, lead: string)
    requires AllPlain(names) && AllWS(lead)
    ensures Ascii(InsText(names, lead))
  {
    hide Quote;
    if |names| > 0 {
      assert names[0] in names && forall n :: n in names[1..] ==> n in names;
      QuoteReads(names[0]);
      WSAscii(lead);
      InsTextAscii(names[1..], lead);
    }
  }

  // ---- the edited text read back ----

  lemma FullIsArray(r: Scanned)
    requires Editable(r) && FieldOf(r.list, LIST_FIELD).Full?
    ensures var st := FieldOf(r.list, LIST_FIELD);
            && st.i < |r.list| && |st.list| > 0 && AllGood(st.list) && r.list[st.i].val == ArrayOf("", st.list)
            && AllWS(ElementLead(r, st))
  {
    hide Value, StringArray, ArrayOf, CleanText, RootText, Find, GoodElem;
    var st := FieldOf(r.list, LIST_FIELD);
    var p := r.list[st.i];
    assert p in r.list;
    ArrayStarts(p.val);
    StringArraySound(p.val);
    PadUnused(PadOf(p.val), st.list);
    assert st.list[|st.list| - 1] in st.list;
    GoodLead(st.list[|st.list| - 1]);
    StyleIsWS(r.list);
  }

  lemma GoodLead(e: Elem)
    requires GoodElem(e)
    ensures AllWS(e.lead)
  {
  }

  lemma PadUnused(pad: string, list: seq<Elem>)
    requires |list| > 0
    ensures ArrayOf(pad, list) == ArrayOf("", list)
  {
  }

  lemma ArrayStarts(val: string)
    requires Value(val, 1).Val? && Value(val, 1).kind == KArray
    ensures |val| > 0 && val[0] == '['
  {
  }

  lemma EmptyLeadWS(r: Scanned)
    requires r.Root?
    ensures AllWS(EmptyLead(r)) && IsColon([':'] + SepOf(r.list))
  {
    var c := [':'] + SepOf(r.list);
    assert WS(c) == 0;
    assert c[1..] == SepOf(r.list);
  }

  /** The edit keeps every byte but the one span, and the result is read back as the same members
      with the list's member changed or added. */
  lemma EditReads(r: Scanned, add: seq<string>)
    requires Editable(r) && AllPlain(add)
    ensures var data, sp := RootText(r), SpliceAt(r, add);
            && sp.start <= sp.end <= |data|
            && Edit(r, add) == data[..sp.start] + (sp.repl + data[sp.end..])
            && Scan(Edit(r, add)) == Edited(r, add)
  {
    hide WellFormedRoot, CleanText, RootText, Scan, SpliceAt, Edited, FieldOf, AllPlain, Once, AllPlainKeys;
    match FieldOf(r.list, LIST_FIELD)
    case Full(_, _) => FullReads(r, add);
    case EmptyList(_) => EmptyReads(r, add);
    case _ => AbsentReads(r, add);
  }

  /** With the span put in, the text reads as the members given. */
  predicate ReadsAs(r: Scanned, sp: Span2, out: Scanned)
    requires r.Root?
  {
    var data := RootText(r);
    sp.start <= sp.end <= |data| && Scan(data[..sp.start] + (sp.repl + data[sp.end..])) == out
  }

  lemma FullReads(r: Scanned, add: seq<string>)
    requires Editable(r) && AllPlain(add) && FieldOf(r.list, LIST_FIELD).Full?
    ensures ReadsAs(r, SpliceAt(r, add), Edited(r, add))
  {
    hide Value, WellFormed, CleanText, RootText, Scan, ArrayOf, InsText, AddNames, Find, StringArray, ValStart, ElementLead;
    var st := FieldOf(r.list, LIST_FIELD);
    FullIsArray(r);
    hide FieldOf;
    InsTextAscii(add, ElementLead(r, st));
    InsertedReads(r, st.i, st.list, ElementLead(r, st), add);
  }

  lemma EmptyReads(r: Scanned, add: seq<string>)
    requires Editable(r) && AllPlain(add) && FieldOf(r.list, LIST_FIELD).EmptyList?
    ensures ReadsAs(r, SpliceAt(r, add), Edited(r, add))
  {
    hide Value, WellFormed, CleanText, RootText, Scan, FreshText, Find, StringArray, ValStart, ValEnd;
    var i := FieldOf(r.list, LIST_FIELD).i;
    assert r.list[i] in r.list;
    LeadIsWS(r.list[i]);
    FreshReads(r, add, r.list[i].lead);
    SpanOrder(r, i);
    ReplacedReads(r, i, FreshText(r, add, r.list[i].lead));
  }

  lemma AbsentReads(r: Scanned, add: seq<string>)
    requires Editable(r) && AllPlain(add) && FieldOf(r.list, LIST_FIELD).Absent?
    ensures ReadsAs(r, SpliceAt(r, add), Edited(r, add))
  {
    hide CleanText, RootText, Scan, FreshText, Find, StringArray, ValEnd, MemberText, Appended, Filled, IsColon, WellFormed, Repeats;
    if |r.list| > 0 {
      var last := r.list[|r.list| - 1];
      LastMember(r);
      FreshReads(r, add, last.lead);
      AppendedReads(r, last.lead, last.colon, FreshText(r, add, last.lead));
    } else {
      EmptyLeadWS(r);
      FreshReads(r, add, EmptyLead(r));
      SepColon(r);
      FilledReads(r, EmptyLead(r), [':'] + SepOf(r.list), FreshText(r, add, EmptyLead(r)));
    }
  }

  lemma LastMember(r: Scanned)
    requires r.Root? && WellFormedRoot(r) && |r.list| > 0
    ensures var last := r.list[|r.list| - 1]; AllWS(last.lead) && AllWS(last.trail) && IsColon(last.colon)
  {
    hide WellFormed, Repeats, AllWS, IsColon;
    var last := r.list[|r.list| - 1];
    assert last in r.list;
    LeadIsWS(last);
  }

  lemma SepColon(r: Scanned)
    requires r.Root? && |r.list| == 0
    ensures IsColon([':'] + SepOf(r.list))
  {
  }

  lemma SpanOrder(r: Scanned, i: nat)
    requires r.Root? && i < |r.list|
    ensures ValStart(r, i) <= ValEnd(r, i)
  {
  }

  // ---- what the edited profile holds ----

  lemma {:induction false} FindSame(list: seq<Piece>, i: nat, val: string, field: string)
    requires i < |list|
    ensures Find(list[i := Revalued(list[i], val)], field) == Find(list, field)
  {
    var list' := list[i := Revalued(list[i], val)];
    if i > 0 {
      assert list'[1..] == list[1..][i - 1 := Revalued(list[i], val)];
      FindSame(list[1..], i - 1, val, field);
    } else {
      assert list'[1..] == list[1..];
    }
  }

  lemma {:induction false} FindSnoc(list: seq<Piece>, p: Piece, field: string)
    ensures Find(list + [p], field) ==
            if Find(list, field) < |list| then Find(list, field) else if Named(p, field) then |list| else |list| + 1
  {
    var all := list + [p];
    if |list| > 0 {
      assert all[1..] == list[1..] + [p];
      FindSnoc(list[1..], p, field);
    } else {
      assert all[1..] == [];
    }
  }

  lemma {:induction false} FindBare(list: seq<Piece>, field: string)
    requires |list| > 0
    ensures Find(BareLast(list), field) == Find(list, field)
  {
    if |list| > 1 {
      assert BareLast(list)[1..] == BareLast(list[1..]);
      FindBare(list[1..], field);
    } else {
      assert BareLast(list)[1..] == [] == list[1..];
    }
  }

  /** The entries the edit is to leave: the old ones, or NetBird's own, then the added names. */
  function NewEntries(r: Scanned, add: seq<string>): seq<string>
    requires Editable(r)
  {
    var st := FieldOf(r.list, LIST_FIELD);
    if st.Full? then Texts(st.list) + add else WithEntries(DEFAULTS, add)
  }

  lemma ListField(list: seq<Piece>, i: nat, es: seq<Elem>)
    requires i == Find(list, LIST_FIELD) && i < |list| && list[i].kind == KArray && |list[i].val| > 0
    requires StringArray(list[i].val).Strings? && StringArray(list[i].val).list == es && |es| > 0
    ensures FieldOf(list, LIST_FIELD) == Full(i, es)
  {
  }

  /** The edited profile's list is exactly that. */
  lemma EditedEntries(r: Scanned, add: seq<string>)
    requires Editable(r) && AllPlain(add)
    ensures FieldOf(Edited(r, add).list, LIST_FIELD).Full?
    ensures EntriesOf(FieldOf(Edited(r, add).list, LIST_FIELD)) == NewEntries(r, add)
  {
    hide Value, WellFormed, CleanText, RootText, FreshText, ArrayOf, AddNames, Find, StringArray, LowerName;
    var st := FieldOf(r.list, LIST_FIELD);
    var r' := Edited(r, add);
    match st
    case Full(i, es) =>
      FullIsArray(r);
      var lead := ElementLead(r, st);
      var val := ArrayOf("", AddNames(es, lead, add));
      AddNamesGood(es, lead, add);
      ArrayExact("", AddNames(es, lead, add));
      FindSame(r.list, i, val, LIST_FIELD);
      ListField(r'.list, i, AddNames(es, lead, add));
    case EmptyList(i) =>
      var val := FreshText(r, add, r.list[i].lead);
      assert r.list[i] in r.list;
      LeadIsWS(r.list[i]);
      FreshReads(r, add, r.list[i].lead);
      FindSame(r.list, i, val, LIST_FIELD);
      FreshField(r', i, val, add);
    case Wrong =>
    case Absent => AbsentEntries(r, add);
  }

  lemma FreshField(r: Scanned, i: nat, val: string, add: seq<string>)
    requires r.Root? && i == Find(r.list, LIST_FIELD) && i < |r.list| && r.list[i].kind == KArray && r.list[i].val == val
    requires |val| > 0 && StringArray(val).Strings? && Texts(StringArray(val).list) == WithEntries(DEFAULTS, add)
    ensures FieldOf(r.list, LIST_FIELD).Full? && EntriesOf(FieldOf(r.list, LIST_FIELD)) == WithEntries(DEFAULTS, add)
  {
    hide StringArray, Find;
    DefaultsPlain();
    ListField(r.list, i, StringArray(val).list);
  }

  lemma AbsentEntries(r: Scanned, add: seq<string>)
    requires Editable(r) && AllPlain(add) && FieldOf(r.list, LIST_FIELD).Absent?
    ensures FieldOf(Edited(r, add).list, LIST_FIELD).Full?
    ensures EntriesOf(FieldOf(Edited(r, add).list, LIST_FIELD)) == WithEntries(DEFAULTS, add)
  {
    hide Value, WellFormed, CleanText, RootText, FreshText, Find, StringArray, LowerName;
    var r' := Edited(r, add);
    ListKeyLower();
    if |r.list| > 0 {
      var last := r.list[|r.list| - 1];
      assert last in r.list;
      LeadIsWS(last);
      FreshReads(r, add, last.lead);
      FindBare(r.list, LIST_FIELD);
      FindSnoc(BareLast(r.list), r'.list[|r.list|], LIST_FIELD);
      assert r'.list == BareLast(r.list) + [r'.list[|r.list|]];
      FreshField(r', |r.list|, FreshText(r, add, last.lead), add);
    } else {
      EmptyLeadWS(r);
      FreshReads(r, add, EmptyLead(r));
      FindSnoc([], r'.list[0], LIST_FIELD);
      assert [] + r'.list == r'.list && r'.list == [r'.list[0]];
      FindNone(LIST_FIELD);
      FreshField(r', 0, FreshText(r, add, EmptyLead(r)), add);
    }
  }

  lemma FindNone(field: string)
    ensures Find([], field) == 0
  {
  }

  /** Same key and value, byte for byte, read as the same. */
  predicate SameMember(p: Piece, q: Piece) {
    && p.key == q.key && p.val == q.val && p.name == q.name && p.plain == q.plain
    && p.kind == q.kind && p.str == q.str && p.strPlain == q.strPlain
  }

  /** Every other root member keeps its key and value bytes, in order. */
  lemma OthersKept(r: Scanned, add: seq<string>, j: nat)
    requires Editable(r) && j < |r.list| && j != Find(r.list, LIST_FIELD)
    ensures |Edited(r, add).list| >= |r.list| && SameMember(Edited(r, add).list[j], r.list[j])
  {
    hide Value, WellFormed, CleanText, RootText, FreshText, ArrayOf, AddNames, StringArray, LowerName;
  }

  // ---- the repair as a whole ----

  lemma CoverStays(entries: seq<string>, more: seq<string>, name: string)
    requires Covers(entries, name) && forall e :: e in entries ==> e in more
    ensures Covers(more, name)
  {
    var e :| e in entries && e != "" && e <= name;
    assert e in more;
  }

  lemma {:induction false} NothingMissing(entries: seq<string>, names: seq<string>)
    requires forall n :: n in names ==> Covers(entries, n)
    ensures Missing(entries, names) == []
  {
    if |names| > 0 {
      NothingMissing(entries, names[..|names| - 1]);
      assert names[|names| - 1] in names;
    }
  }

  predicate AllNamed(names: seq<string>) {
    forall n :: n in names ==> n != "" && PlainName(n)
  }

  /** Repeating the edit asks for nothing. */
  lemma EditIsIdempotent(r: Scanned, names: seq<string>)
    requires Editable(r) && AllNamed(names)
    ensures var add := Missing(EntriesOf(FieldOf(r.list, LIST_FIELD)), names);
            Missing(EntriesOf(FieldOf(Edited(r, add).list, LIST_FIELD)), names) == []
  {
    hide FieldOf, Edited, WellFormed, CleanText, RootText, PlainName;
    var entries := EntriesOf(FieldOf(r.list, LIST_FIELD));
    var add := Missing(entries, names);
    EditedEntries(r, add);
    forall n | n in names
      ensures Covers(NewEntries(r, add), n)
    {
      if n in add {
        CoversItself(NewEntries(r, add), n);
      } else {
        CoverStays(entries, NewEntries(r, add), n);
      }
    }
    NothingMissing(NewEntries(r, add), names);
  }
}
