/**
The repair of a profile, from its text to its new text: what is refused, what is left alone,
and that the checks on the edited text never fail.
*/
module ProfileFix {
  import opened Json
  import opened Profile
  import opened Blacklist
  import opened Splice
  import opened ProfileEdit

  // ---- the splice ----

  /** The lead of the last element, read off the text. */
  lemma FullLead(r: Scanned)
    requires Editable(r) && FieldOf(r.list, LIST_FIELD).Full?
    ensures var st := FieldOf(r.list, LIST_FIELD);
            var at := ValStart(r, st.i) + LastStart(st.list);
            at <= |RootText(r)| && LeadBefore(RootText(r), at) == st.list[|st.list| - 1].lead
  {
    hide Value, WellFormed, CleanText, RootText, ArrayOf, Find, StringArray, LeadBefore, LastStart, GoodElem, HeadText, TailText;
    var st := FieldOf(r.list, LIST_FIELD);
    FullIsArray(r);
    assert st.list[|st.list| - 1] in st.list;
    GoodLead(st.list[|st.list| - 1]);
    RootAround(r, st.i);
    HeadLength(r, st.i);
    ElemLead(HeadText(r, st.i), st.list, TailText(r, st.i));
  }

  lemma HeadLength(r: Scanned, i: nat)
    requires r.Root? && i < |r.list|
    ensures |HeadText(r, i)| == ValStart(r, i)
  {
  }

  /** Where the names go, and as what text: found by walking the text back from the list's last
      element, its key, or the last member's key. */
  method FindSplice(data: string, r: Scanned, add: seq<string>) returns (sp: Span2)
    requires Editable(r) && data == RootText(r) && AllPlain(add)
    ensures sp == SpliceAt(r, add)
  {
    hide Value, WellFormed, CleanText, RootText, Scan, ArrayOf, InsText, AddNames, Find, StringArray, LeadBefore, JoinPieces;
    hide PlainName, ArrayText, MemberText;
    var st := FieldOf(r.list, LIST_FIELD);
    var unit, sep := UnitOf(r.list), SepOf(r.list);
    match st {
      case Full(i, es) =>
        FullLead(r);
        FullIsArray(r);
        var lead := RunLeadBefore(data, ValStart(r, i) + LastStart(es));
        if lead == "" && |es| == 1 {
          lead := sep;
        }
        var at := ValStart(r, i) + InsertAt(es);
        sp := Span2(at, at, InsText(add, lead));
      case EmptyList(i) =>
        MemberLead(r, i);
        var lead := RunLeadBefore(data, KeyStart(r, i));
        sp := Span2(ValStart(r, i), ValEnd(r, i), ArrayText(WithEntries(DEFAULTS, add), lead, unit, sep));
      case Absent =>
        if |r.list| > 0 {
          var k := |r.list| - 1;
          MemberLead(r, k);
          var lead := RunLeadBefore(data, KeyStart(r, k));
          var text := MemberText(lead, r.list[k].colon, ArrayText(WithEntries(DEFAULTS, add), lead, unit, sep));
          sp := Span2(ValEnd(r, k), ValEnd(r, k), [','] + text);
        } else {
          var lead := EmptyLead(r);
          var text := MemberText(lead, [':'] + sep, ArrayText(WithEntries(DEFAULTS, add), lead, unit, sep));
          sp := Span2(|r.before| + 1, |r.before| + 1, text);
        }
    }
  }

  /** What is checked of a spliced text holds of the edited profile. */
  lemma EditedPasses(r: Scanned, add: seq<string>)
    requires Editable(r) && AllPlain(add)
    ensures r.Root? && Edited(r, add).Root? && !Edited(r, add).dup && |Edited(r, add).list| >= |r.list|
    ensures var chk := FieldOf(Edited(r, add).list, LIST_FIELD);
            && !chk.Wrong?
            && (forall n :: n in add ==> n in EntriesOf(chk))
            && forall n :: n in EntriesOf(FieldOf(r.list, LIST_FIELD)) ==> n in EntriesOf(chk)
  {
    hide Value, WellFormed, CleanText, RootText, Scan, ArrayOf, InsText, AddNames, Find, StringArray, JoinPieces;
    hide PlainName, ArrayText, MemberText;
    EditedEntries(r, add);
  }

  /** The text with the names added, spliced by offsets, checked before it is used. The checks
      never fail. */
  method SpliceBlacklist(data: string, r: Scanned, add: seq<string>) returns (ok: bool, out: string)
    requires Editable(r) && data == RootText(r) && AllPlain(add)
    ensures ok && out == Edit(r, add)
  {
    EditedPasses(r, add);
    hide RootText, Scan, FieldOf, Edit, SpliceAt, Edited, Editable, AllPlain, EntriesOf;
    var st := FieldOf(r.list, LIST_FIELD);
    var sp := FindSplice(data, r, add);
    EditReads(r, add);
    out := data[..sp.start] + (sp.repl + data[sp.end..]);
    var again := Scan(out);
    if again.Malformed? || again.dup {
      return false, out;
    }
    var chk := FieldOf(again.list, LIST_FIELD);
    if chk.Wrong? || |again.list| < |r.list| {
      return false, out;
    }
    ok := (forall n :: n in add ==> n in EntriesOf(chk)) && (forall n :: n in EntriesOf(st) ==> n in EntriesOf(chk));
  }

  // ---- clearing the external addresses ----

  /** A profile whose external-address field is a list with entries. */
  predicate Clearable(r: Scanned) {
    && r.Root? && WellFormedRoot(r) && CleanText(RootText(r)) && !r.dup
    && FieldOf(r.list, MAP_FIELD).Full?
  }

  function Cleared(r: Scanned): Scanned
    requires Clearable(r)
  {
    WithValue(r, Find(r.list, MAP_FIELD), "[]")
  }

  function ClearText(r: Scanned): string
    requires Clearable(r)
  {
    var data, i := RootText(r), Find(r.list, MAP_FIELD);
    if ValEnd(r, i) <= |data| then data[..ValStart(r, i)] + ("[]" + data[ValEnd(r, i)..]) else data
  }

  lemma EmptyArrayReads()
    ensures Value("[]", 1) == Val(2, KArray, "", true, false) && Ascii("[]") && StringArray("[]") == Strings(2, [])
  {
    hide Value, StringArray;
    ArrayExact("", []);
    assert ArrayOf("", []) == "[]";
  }

  /** The cleared text is read back as the same members with that list empty. */
  lemma ClearReads(r: Scanned)
    requires Clearable(r)
    ensures var i := Find(r.list, MAP_FIELD);
            && ValEnd(r, i) <= |RootText(r)| && Scan(ClearText(r)) == Cleared(r)
            && FieldOf(Cleared(r).list, MAP_FIELD) == EmptyList(i)
  {
    hide Value, WellFormed, CleanText, RootText, Scan, StringArray, Ascii, ValStart, ValEnd;
    var i := Find(r.list, MAP_FIELD);
    EmptyArrayReads();
    ReplacedReads(r, i, "[]");
    FindSame(r.list, i, "[]", MAP_FIELD);
  }

  method ClearExternalIPMap(data: string) returns (ok: bool, out: string)
    requires Scan(data).Root? && !Scan(data).dup && FieldOf(Scan(data).list, MAP_FIELD).Full?
    requires Once(Scan(data).list, MAP_FIELD)
    ensures Clearable(Scan(data)) && ok && out == ClearText(Scan(data))
  {
    hide Value, WellFormed, CleanText, RootText, Scan, StringArray;
    ScanSound(data);
    out := data;
    var r := Scan(data);
    if r.Malformed? || r.dup {
      return false, out;
    }
    var i := Find(r.list, MAP_FIELD);
    if i == |r.list| || !Once(r.list, MAP_FIELD) {
      return false, out;
    }
    ClearReads(r);
    out := data[..ValStart(r, i)] + ("[]" + data[ValEnd(r, i)..]);
    var again := Scan(out);
    if again.Malformed? || again.dup || |again.list| != |r.list| {
      return false, out;
    }
    ok := !FieldOf(again.list, MAP_FIELD).Wrong? && !FieldOf(again.list, MAP_FIELD).Full?;
  }

  // ---- fields the splice does not touch ----

  lemma NamesKept(r: Scanned, add: seq<string>, j: nat)
    requires Editable(r) && j < |Edited(r, add).list|
    ensures Edited(r, add).Root? && |Edited(r, add).list| >= |r.list| && Edited(r, add).dup == r.dup
    ensures j < |r.list| ==> Edited(r, add).list[j].name == r.list[j].name && Edited(r, add).list[j].plain == r.list[j].plain
    ensures j >= |r.list| ==> Edited(r, add).list[j].name == LIST_KEY && Edited(r, add).list[j].plain
  {
    hide Value, WellFormed, CleanText, RootText, FreshText, ArrayOf, AddNames, StringArray, LowerName, Find;
  }

  lemma {:induction false} FindByName(list: seq<Piece>, other: seq<Piece>, field: string)
    requires |other| >= |list| && Find(list, field) < |list|
    requires forall j :: 0 <= j < |list| ==> (Named(other[j], field) <==> Named(list[j], field))
    ensures Find(other, field) == Find(list, field)
  {
    if !Named(list[0], field) {
      assert forall j :: 0 <= j < |list[1..]| ==> other[1..][j] == other[j + 1] && list[1..][j] == list[j + 1];
      FindByName(list[1..], other[1..], field);
    }
  }

  lemma FieldsDiffer()
    ensures LIST_FIELD != MAP_FIELD && LowerName(LIST_KEY) != MAP_FIELD
  {
    ListKeyLower();
    assert LIST_FIELD[0] != MAP_FIELD[0];
  }

  lemma NamedKept(r: Scanned, add: seq<string>, field: string)
    requires Editable(r)
    ensures forall j :: 0 <= j < |r.list| ==> j < |Edited(r, add).list| && (Named(Edited(r, add).list[j], field) <==> Named(r.list[j], field))
  {
    hide Value, WellFormed, CleanText, RootText, FreshText, ArrayOf, AddNames, StringArray, LowerName, Find, WellFormedRoot, Edited;
    EditedLonger(r, add);
    forall j | 0 <= j < |r.list|
      ensures j < |Edited(r, add).list| && (Named(Edited(r, add).list[j], field) <==> Named(r.list[j], field))
    {
      NamesKept(r, add, j);
    }
  }

  lemma EditedLonger(r: Scanned, add: seq<string>)
    requires Editable(r)
    ensures |Edited(r, add).list| >= |r.list| && Edited(r, add).Root? && Edited(r, add).dup == r.dup
  {
    hide Value, WellFormed, CleanText, RootText, FreshText, ArrayOf, AddNames, StringArray, LowerName, Find;
  }

  /** The external-address field is what it was after the blacklist has been edited. */
  lemma MapSurvives(r: Scanned, add: seq<string>)
    requires Editable(r) && Once(r.list, MAP_FIELD)
    ensures FieldOf(Edited(r, add).list, MAP_FIELD) == FieldOf(r.list, MAP_FIELD) && Once(Edited(r, add).list, MAP_FIELD)
  {
    hide Value, WellFormed, CleanText, RootText, StringArray, LowerName, Edited, WellFormedRoot;
    var r' := Edited(r, add);
    var i := Find(r.list, MAP_FIELD);
    FieldsDiffer();
    EditedLonger(r, add);
    NamedKept(r, add, MAP_FIELD);
    if i < |r.list| {
      FindByName(r.list, r'.list, MAP_FIELD);
      OthersKept(r, add, i);
    }
    forall l | |r.list| <= l < |r'.list|
      ensures !Named(r'.list[l], MAP_FIELD)
    {
      NamesKept(r, add, l);
    }
  }

  // ---- the whole repair ----

  datatype Fix = Refused | Unchanged | Changed(out: string, added: seq<string>, cleared: bool)

  /** What is checked before anything is changed. */
  predicate Accepts(r: Scanned, clear: bool) {
    && r.Root? && !r.dup && AllPlainKeys(r.list)
    && Once(r.list, "ifaceblacklist") && Once(r.list, "wgiface") && Once(r.list, "rosenpassenabled")
    && !FieldOf(r.list, LIST_FIELD).Wrong?
    && (clear ==> Once(r.list, MAP_FIELD) && !FieldOf(r.list, MAP_FIELD).Wrong?)
  }

  lemma AcceptedIsEditable(data: string, clear: bool)
    requires Accepts(Scan(data), clear)
    ensures Editable(Scan(data)) && RootText(Scan(data)) == data
  {
    hide WellFormed, CleanText, RootText, Scan;
    ScanSound(data);
  }

  /** The members after the repair, from the members before. */
  function FixedRoot(r: Scanned, add: seq<string>, held: bool): Scanned
    requires Editable(r)
  {
    var r1 := if |add| > 0 then Edited(r, add) else r;
    if held && Clearable(r1) then Cleared(r1) else r1
  }

  /** The edits made one after the other, each checked. */
  method ApplyFix(data: string, r: Scanned, add: seq<string>, held: bool) returns (ok: bool, out: string)
    requires Editable(r) && RootText(r) == data && Scan(data) == r && AllPlain(add)
    requires held ==> FieldOf(r.list, MAP_FIELD).Full? && Once(r.list, MAP_FIELD)
    ensures ok && Scan(out) == FixedRoot(r, add, held)
  {
    hide Value, WellFormed, WellFormedRoot, CleanText, RootText, Scan, StringArray, FieldOf, Edited, Edit, Once, AllPlainKeys, PlainName;
    ok, out := true, data;
    if |add| > 0 {
      ok, out := SpliceBlacklist(data, r, add);
      EditReads(r, add);
    }
    if held {
      if |add| > 0 {
        MapSurvives(r, add);
        EditedLonger(r, add);
      }
      ok, out := ClearExternalIPMap(out);
      ClearReads(if |add| > 0 then Edited(r, add) else r);
    }
  }

  /** The repair's decision and its new text: refused unless every check passes, unchanged when
      every name is covered and there is nothing to clear, else the edited text. */
  method FixProfile(data: string, names: seq<string>, clear: bool) returns (fix: Fix)
    ensures !(Accepts(Scan(data), clear) && forall n :: n in names ==> ValidInterfaceName(n)) ==> fix == Refused
    ensures Accepts(Scan(data), clear) && (forall n :: n in names ==> ValidInterfaceName(n)) ==>
              && Editable(Scan(data))
              && FixIs(Scan(data), Missing(EntriesOf(FieldOf(Scan(data).list, LIST_FIELD)), names),
                       clear && FieldOf(Scan(data).list, MAP_FIELD).Full?, fix)
    ensures Accepts(Scan(data), clear) && (forall n :: n in names ==> ValidInterfaceName(n)) ==>
              var entries, held := EntriesOf(FieldOf(Scan(data).list, LIST_FIELD)), clear && FieldOf(Scan(data).list, MAP_FIELD).Full?;
              && (fix == Unchanged <==> (forall n :: n in names ==> Excluded(entries, n)) && !held)
              && (fix.Changed? ==> forall n :: n in fix.added <==> n in names && !Excluded(entries, n))
  {
    hide Value, WellFormed, WellFormedRoot, CleanText, RootText, Scan, StringArray, ValidInterfaceName, FieldOf, Edited, Edit, Excluded, Missing;
    var r := Scan(data);
    if (exists n :: n in names && !ValidInterfaceName(n)) || !Accepts(r, clear) {
      return Refused;
    }
    AcceptedIsEditable(data, clear);
    forall n | n in names
      ensures PlainName(n)
    {
      ValidIsPlain(n);
    }
    var add := FindMissing(EntriesOf(FieldOf(r.list, LIST_FIELD)), names);
    var held := clear && FieldOf(r.list, MAP_FIELD).Full?;
    if |add| == 0 && !held {
      return Unchanged;
    }
    assert |add| > 0 ==> add[0] in add;
    var ok, out := ApplyFix(data, r, add, held);
    fix := if ok then Changed(out, add, held) else Refused;
  }

  /** What the repair says when there is this to add and this to clear. */
  predicate FixIs(r: Scanned, add: seq<string>, held: bool, fix: Fix)
    requires Editable(r)
  {
    if |add| == 0 && !held then fix == Unchanged
    else fix.Changed? && fix.added == add && fix.cleared == held && Scan(fix.out) == FixedRoot(r, add, held)
  }

  // ---- repeating the repair ----

  lemma OnceKept(r: Scanned, add: seq<string>, field: string)
    requires Editable(r) && Once(r.list, field) && (field == LIST_FIELD || LowerName(LIST_KEY) != field)
    ensures Once(Edited(r, add).list, field)
  {
    hide Value, WellFormed, WellFormedRoot, CleanText, RootText, StringArray, LowerName, Edited;
    var r' := Edited(r, add);
    EditedLonger(r, add);
    NamedKept(r, add, field);
    forall j, l | 0 <= j < l < |r'.list|
      ensures !(Named(r'.list[j], field) && Named(r'.list[l], field))
    {
      NamesKept(r, add, l);
      if l >= |r.list| && field == LIST_FIELD {
        OnlyOneMore(r, add, j, l);
      }
    }
  }

  lemma OnlyOneMore(r: Scanned, add: seq<string>, j: nat, l: nat)
    requires Editable(r) && j < l < |Edited(r, add).list| && l >= |r.list|
    ensures j < |r.list| && l == |r.list| && !Named(r.list[j], LIST_FIELD)
  {
    hide Value, WellFormed, WellFormedRoot, CleanText, RootText, FreshText, ArrayOf, AddNames, StringArray, LowerName;
  }

  lemma PlainKept(r: Scanned, add: seq<string>)
    requires Editable(r)
    ensures AllPlainKeys(Edited(r, add).list)
  {
    hide Value, WellFormed, WellFormedRoot, CleanText, RootText, StringArray, LowerName, Edited;
    var r' := Edited(r, add);
    EditedLonger(r, add);
    forall p | p in r'.list
      ensures p.plain
    {
      var j :| 0 <= j < |r'.list| && r'.list[j] == p;
      NamesKept(r, add, j);
      if j < |r.list| {
        assert r.list[j] in r.list;
      }
    }
  }

  /** A profile that has been edited is accepted again. */
  lemma EditedAccepted(r: Scanned, add: seq<string>, clear: bool)
    requires Editable(r) && Accepts(r, clear) && AllPlain(add)
    ensures Accepts(Edited(r, add), clear)
  {
    hide Value, WellFormed, WellFormedRoot, CleanText, RootText, StringArray, LowerName, Edited, FieldOf, Once, PlainName;
    EditedLonger(r, add);
    PlainKept(r, add);
    EditedEntries(r, add);
    OtherFields();
    OnceKept(r, add, "ifaceblacklist");
    OnceKept(r, add, "wgiface");
    OnceKept(r, add, "rosenpassenabled");
    if clear {
      MapSurvives(r, add);
    }
  }

  lemma OtherFields()
    ensures LowerName(LIST_KEY) != "wgiface" && LowerName(LIST_KEY) != "rosenpassenabled" && LowerName(LIST_KEY) != MAP_FIELD
    ensures "ifaceblacklist" == LIST_FIELD
  {
    ListKeyLower();
    assert |LIST_FIELD| != |"wgiface"| && |LIST_FIELD| != |"rosenpassenabled"|;
    assert LIST_FIELD[0] != MAP_FIELD[0];
  }

  /** A new value changes no name. */
  lemma RevaluedNames(list: seq<Piece>, i: nat, val: string, field: string)
    requires i < |list|
    ensures var list' := list[i := Revalued(list[i], val)];
            && (Once(list, field) ==> Once(list', field)) && (AllPlainKeys(list) ==> AllPlainKeys(list'))
  {
    hide LowerName;
    var list' := list[i := Revalued(list[i], val)];
    assert forall j :: 0 <= j < |list| ==> (Named(list'[j], field) <==> Named(list[j], field));
    forall p | p in list'
      ensures exists q :: q in list && q.plain == p.plain
    {
      var j :| 0 <= j < |list'| && list'[j] == p;
      assert list[j] in list && list[j].plain == p.plain;
    }
  }

  /** A new value changes no field but its own. */
  lemma RevaluedField(list: seq<Piece>, i: nat, val: string, field: string)
    requires i < |list| && i != Find(list, field)
    ensures FieldOf(list[i := Revalued(list[i], val)], field) == FieldOf(list, field)
  {
    hide Find, StringArray;
    FindSame(list, i, val, field);
  }

  /** A profile whose external addresses have been cleared is accepted again, its blacklist as it was. */
  lemma ClearedAccepted(r: Scanned)
    requires Accepts(r, true) && Clearable(r)
    ensures Accepts(Cleared(r), true)
    ensures FieldOf(Cleared(r).list, MAP_FIELD).EmptyList? && FieldOf(Cleared(r).list, LIST_FIELD) == FieldOf(r.list, LIST_FIELD)
  {
    var i := MapIndex(r);
    ClearReads(r);
    hide WellFormedRoot, CleanText, RootText, FieldOf, Once, AllPlainKeys, Find;
    RevaluedNames(r.list, i, "[]", "ifaceblacklist");
    RevaluedNames(r.list, i, "[]", "wgiface");
    RevaluedNames(r.list, i, "[]", "rosenpassenabled");
    RevaluedNames(r.list, i, "[]", MAP_FIELD);
    RevaluedField(r.list, i, "[]", LIST_FIELD);
  }

  lemma MapIndex(r: Scanned) returns (i: nat)
    requires Clearable(r)
    ensures i == Find(r.list, MAP_FIELD) < |r.list| && i != Find(r.list, LIST_FIELD)
  {
    hide WellFormedRoot, CleanText, RootText, LowerName, StringArray;
    i := Find(r.list, MAP_FIELD);
    FieldsDiffer();
  }

  /** A profile that passes, with every name covered and nothing to clear. */
  predicate Settled(r: Scanned, names: seq<string>, clear: bool) {
    && Accepts(r, clear) && Missing(EntriesOf(FieldOf(r.list, LIST_FIELD)), names) == []
    && !(clear && FieldOf(r.list, MAP_FIELD).Full?)
  }

  /** Adding what is missing leaves nothing missing, and the external addresses as they were. */
  lemma AddedSettles(r: Scanned, names: seq<string>, clear: bool)
    requires Editable(r) && Accepts(r, clear) && AllNamed(names)
    ensures var r' := Edited(r, Missing(EntriesOf(FieldOf(r.list, LIST_FIELD)), names));
            && r'.Root? && Accepts(r', clear) && Missing(EntriesOf(FieldOf(r'.list, LIST_FIELD)), names) == []
            && (clear ==> FieldOf(r'.list, MAP_FIELD) == FieldOf(r.list, MAP_FIELD))
  {
    hide WellFormedRoot, CleanText, RootText, Edited, FieldOf, Once, AllPlainKeys, PlainName, Covers;
    var add := Missing(EntriesOf(FieldOf(r.list, LIST_FIELD)), names);
    EditIsIdempotent(r, names);
    EditedAccepted(r, add, clear);
    if clear {
      MapSurvives(r, add);
    }
  }

  /** The whole repair settles. */
  lemma FixedSettles(r: Scanned, names: seq<string>, clear: bool)
    requires Editable(r) && Accepts(r, clear) && AllNamed(names)
    ensures var add := Missing(EntriesOf(FieldOf(r.list, LIST_FIELD)), names);
            var held := clear && FieldOf(r.list, MAP_FIELD).Full?;
            Settled(FixedRoot(r, add, held), names, clear)
  {
    hide WellFormedRoot, CleanText, RootText, Edited, FieldOf, Once, AllPlainKeys, PlainName, Covers, Cleared, AllNamed;
    var add := Missing(EntriesOf(FieldOf(r.list, LIST_FIELD)), names);
    var held := clear && FieldOf(r.list, MAP_FIELD).Full?;
    var r1 := if |add| > 0 then Edited(r, add) else r;
    AddedSettles(r, names, clear);
    if held {
      StillClearable(r, names, r1);
      ClearedAccepted(r1);
    }
  }

  lemma StillClearable(r: Scanned, names: seq<string>, r1: Scanned)
    requires Editable(r) && Accepts(r, true) && AllNamed(names) && FieldOf(r.list, MAP_FIELD).Full?
    requires var add := Missing(EntriesOf(FieldOf(r.list, LIST_FIELD)), names);
             r1 == if |add| > 0 then Edited(r, add) else r
    ensures Clearable(r1)
  {
    hide Edited, FieldOf, Once, AllPlainKeys, PlainName, Covers, Edit, WellFormedRoot, CleanText, RootText, Scan;
    var add := Missing(EntriesOf(FieldOf(r.list, LIST_FIELD)), names);
    if |add| > 0 {
      AddedSettles(r, names, true);
      EditReads(r, add);
      ScanSound(Edit(r, add));
    }
  }

  /** Run again on its own result, the repair leaves it alone. */
  lemma FixTwice(data: string, names: seq<string>, clear: bool, fix: Fix)
    requires Accepts(Scan(data), clear) && (forall n :: n in names ==> ValidInterfaceName(n)) && Editable(Scan(data))
    requires fix.Changed? &&
             FixIs(Scan(data), Missing(EntriesOf(FieldOf(Scan(data).list, LIST_FIELD)), names),
                   clear && FieldOf(Scan(data).list, MAP_FIELD).Full?, fix)
    ensures Settled(Scan(fix.out), names, clear)
  {
    hide WellFormedRoot, CleanText, RootText, Scan, Settled, Accepts, FixedRoot, FieldOf, Editable, PlainName;
    forall n | n in names
      ensures PlainName(n) && n != ""
    {
      ValidIsPlain(n);
    }
    FixedSettles(Scan(data), names, clear);
  }
}
