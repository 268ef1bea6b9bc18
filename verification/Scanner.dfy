/**
The scanner as the code runs it: one position moved over the text, by loops and by methods
that call each other for nested values. Each is proved to read what the grammar's functions
read from the same position.
*/
module Scanner {
  import opened Json
  import opened JsonLocal
  import opened Profile
  import opened Blacklist

  /** What the text holds from here on. */
  function From(data: string, pos: nat): (s: string)
    requires pos <= |data|
    ensures |s| == |data| - pos
  {
    data[pos..]
  }

  lemma FromFrom(data: string, pos: nat, n: nat)
    requires pos + n <= |data|
    ensures From(data, pos)[n..] == From(data, pos + n) && |From(data, pos)| == |data| - pos
    ensures pos + n < |data| ==> From(data, pos)[n] == data[pos + n]
  {
  }

  class Reader {
    const data: string
    /** Repeated keys are looked for, in every object. */
    const dupAny: bool
    var pos: nat
    var dupFound: bool

    constructor (data: string, dupAny: bool)
      ensures this.data == data && this.dupAny == dupAny && pos == 0 && !dupFound
    {
      this.data, this.dupAny, this.pos, this.dupFound := data, dupAny, 0, false;
    }

    method SkipWS()
      requires pos <= |data|
      modifies this`pos
      ensures old(pos) <= pos <= |data| && pos == old(pos) + WS(From(data, old(pos)))
    {
      ghost var start := pos;
      while pos < |data| && IsWS(data[pos])
        invariant start <= pos <= |data| && WS(From(data, start)) == pos - start + WS(From(data, pos))
      {
        FromFrom(data, pos, 1);
        pos := pos + 1;
      }
    }

    method RunDigits() returns (any: bool)
      requires pos <= |data|
      modifies this`pos
      ensures old(pos) <= pos <= |data| && pos == old(pos) + Digits(From(data, old(pos)))
      ensures any <==> Digits(From(data, old(pos))) > 0
    {
      ghost var start := pos;
      any := false;
      while pos < |data| && IsDigit(data[pos])
        invariant start <= pos <= |data| && Digits(From(data, start)) == pos - start + Digits(From(data, pos))
        invariant any <==> pos > start
      {
        FromFrom(data, pos, 1);
        pos, any := pos + 1, true;
      }
    }

    method RunInt() returns (ok: bool)
      requires pos < |data|
      modifies this`pos
      ensures ok <==> IntPart(From(data, old(pos))).Span?
      ensures ok ==> pos <= |data| && pos == old(pos) + IntPart(From(data, old(pos))).n
    {
      ghost var start := pos;
      if data[pos] == '-' {
        pos := pos + 1;
      }
      FromFrom(data, start, pos - start);
      if pos >= |data| {
        return false;
      }
      if data[pos] == '0' {
        pos := pos + 1;
      } else if IsDigit(data[pos]) {
        var any := RunDigits();
      } else {
        return false;
      }
      ok := true;
    }

    method RunFrac() returns (ok: bool)
      requires pos <= |data|
      modifies this`pos
      ensures ok <==> FracPart(From(data, old(pos))).Span?
      ensures ok ==> pos <= |data| && pos == old(pos) + FracPart(From(data, old(pos))).n
    {
      ok := true;
      if pos < |data| && data[pos] == '.' {
        FromFrom(data, pos, 1);
        pos := pos + 1;
        ok := RunDigits();
      }
    }

    method RunExp() returns (ok: bool)
      requires pos <= |data|
      modifies this`pos
      ensures ok <==> ExpPart(From(data, old(pos))).Span?
      ensures ok ==> pos <= |data| && pos == old(pos) + ExpPart(From(data, old(pos))).n
    {
      ghost var start := pos;
      ok := true;
      if pos < |data| && (data[pos] == 'e' || data[pos] == 'E') {
        FromFrom(data, start, 1);
        pos := pos + 1;
        if pos < |data| && (data[pos] == '+' || data[pos] == '-') {
          pos := pos + 1;
        }
        FromFrom(data, start, pos - start);
        ok := RunDigits();
      }
    }

    method RunNumber() returns (ok: bool)
      requires pos < |data|
      modifies this`pos
      ensures ok <==> Number(From(data, old(pos))).Span?
      ensures ok ==> pos <= |data| && pos == old(pos) + Number(From(data, old(pos))).n
    {
      hide IntPart, FracPart, ExpPart;
      ghost var start := pos;
      ok := RunInt();
      if ok {
        FromFrom(data, start, pos - start);
        ok := RunFrac();
      }
      if ok {
        FromFrom(data, start, pos - start);
        ok := RunExp();
      }
    }

    /** The characters of a string one by one, up to its closing quote. */
    method RunStr() returns (t: Text)
      requires pos < |data|
      modifies this`pos
      ensures t == Str(From(data, old(pos)))
      ensures t.Text? ==> old(pos) < pos <= |data| && pos == old(pos) + t.n
    {
      hide Str, StrTail, HeadOf, Then, From;
      var start := pos;
      StrOpens(data, start);
      pos := pos + 1;
      var text, plain := "", true;
      while true
        invariant start < pos <= |data|
        invariant Str(From(data, start)) == Then(pos - start, text, plain, StrTail(From(data, pos)))
        decreases |data| - pos
      {
        var h := HeadOf(From(data, pos));
        FromFrom(data, pos, 0);
        StrStep(data, pos, pos - start, text, plain);
        match h
        case BadHead => return BadText;
        case Close =>
          pos := pos + 1;
          return Text(pos - start, text, plain);
        case Next(k, piece, p) =>
          pos, text, plain := pos + k, text + piece, plain && p;
      }
    }

    /** A key, its colon and the whitespace around them; the member's text starts at from, and
        the whitespace there may be behind the position already. */
    method RunKey(ghost from: nat) returns (ok: bool, keyStart: nat, keyEnd: nat, key: Text, ghost k: KeyRead)
      requires from <= pos <= |data| && pos - from <= WS(From(data, from))
      modifies this`pos
      ensures k == KeyOf(From(data, from)) && (ok <==> k.KeyRead?)
      ensures ok ==> from <= keyStart <= keyEnd <= pos <= |data| && old(pos) < pos && key.Text?
      ensures ok ==> k == KeyRead(keyStart - from, keyEnd - from, pos - from, key)
    {
      hide KeyOf, Str, WS, From;
      ok, keyStart, keyEnd, key, k := false, 0, 0, BadText, KeyOf(From(data, from));
      WSFrom(data, from, pos);
      SkipWS();
      keyStart := pos;
      KeyStarts(data, from, pos);
      if pos >= |data| || data[pos] != '"' {
        return;
      }
      key := RunStr();
      if key.BadText? {
        return;
      }
      keyEnd := pos;
      SkipWS();
      KeyEnds(data, from, keyStart, keyEnd, pos);
      if pos >= |data| || data[pos] != ':' {
        return;
      }
      pos := pos + 1;
      SkipWS();
      ok := true;
    }

    /** What reading a value from a position leaves, as the grammar's function says. */
    ghost predicate Read(v: Val, start: nat, was: bool, ok: bool, kind: Kind, str: string, plain: bool)
      reads this
    {
      && (ok <==> v.Val?)
      && (ok ==> start < pos <= |data| && v == Val(pos - start, kind, str, plain, v.dup) && Noted(was, v.dup))
    }

    /** A repeat found is remembered, if repeats are looked for. */
    ghost predicate Noted(was: bool, dup: bool)
      reads this
    {
      dupFound == (was || (dupAny && dup))
    }

    lemma ValueRead(v: Val, start: nat, was: bool, ok: bool, kind: Kind, str: string, plain: bool)
      requires Read(v, start, was, ok, kind, str, plain)
      ensures ok <==> v.Val?
      ensures ok ==> start < pos <= |data| && v == Val(pos - start, kind, str, plain, v.dup) && Noted(was, v.dup)
    {
    }

    lemma NotedNone()
      ensures Noted(dupFound, false)
    {
    }

    /** One value; a container's own methods do the rest. */
    method RunValue(depth: nat) returns (ok: bool, kind: Kind, str: string, plain: bool)
      requires pos <= |data|
      modifies this
      ensures Read(Value(From(data, old(pos)), depth), old(pos), old(dupFound), ok, kind, str, plain)
      decreases |data| - pos, 2
    {
      hide Object, Array, Str, Number;
      ok, kind, str, plain := false, KNull, "", false;
      if pos >= |data| {
        return;
      }
      var c := data[pos];
      FromFrom(data, pos, 0);
      if c == '{' {
        ghost var all;
        var members;
        ok, members, all := RunObject(depth + 1, false);
        kind, plain := KObject, true;
      } else if c == '[' {
        ghost var all;
        ok, all := RunArray(depth + 1);
        kind, plain := KArray, true;
      } else if c == '"' {
        var t := RunStr();
        if t.Text? {
          ok, kind, str, plain := true, KString, t.text, t.plain;
        }
      } else if "true" <= data[pos..] {
        pos := pos + 4;
        ok, kind, plain := true, KTrue, true;
      } else if "false" <= data[pos..] {
        pos := pos + 5;
        ok, kind, plain := true, KFalse, true;
      } else if "null" <= data[pos..] {
        pos := pos + 4;
        ok, kind, plain := true, KNull, true;
      } else if c == '-' || IsDigit(c) {
        ok := RunNumber();
        kind, plain := KNumber, true;
      }
    }

    /** One member, up to the comma or brace that ends it. */
    method RunMember(ghost from: nat, depth: nat, seen: set<string>)
      returns (ok: bool, m: Member, ghost r: MemberRead)
      requires from <= pos <= |data| && pos - from <= WS(From(data, from))
      modifies this
      ensures r == OneMember(From(data, from), depth) && (ok <==> r.MemberRead?)
      ensures ok ==> old(pos) < pos < |data| && pos == from + r.end
      ensures ok ==> Records(data, m, r.piece) && m.key == r.piece.name
      ensures ok ==> Noted(old(dupFound), r.piece.name in seen || r.piece.dup)
      decreases |data| - pos, 0
    {
      hide KeyOf, Value, WS, OneMember, From, Records;
      m := Member(0, 0, 0, 0, "", false, KNull, "", false);
      r := OneMember(From(data, from), depth);
      ghost var k;
      var keyStart, keyEnd, key;
      ok, keyStart, keyEnd, key, k := RunKey(from);
      if !ok {
        MemberFails(data, from, depth);
        return;
      }
      if dupAny && key.text in seen {
        dupFound := true;
      }
      var valStart := pos;
      ghost var was := dupFound;
      var kind, str, plain;
      ok, kind, str, plain := RunValue(depth);
      ValueRead(Value(From(data, valStart), depth), valStart, was, ok, kind, str, plain);
      if !ok {
        MemberFails(data, from, depth);
        return;
      }
      var valEnd := pos;
      SkipWS();
      m := Member(keyStart, keyEnd, valStart, valEnd, key.text, key.plain, kind, str, plain);
      MemberEnds(data, from, depth, m, pos);
      ok := pos < |data| && (data[pos] == ',' || data[pos] == '}');
    }

    /** The members of an object whose first member's text starts at from, to past its brace. */
    method RunMembers(ghost from: nat, depth: nat, record: bool)
      returns (ok: bool, members: seq<Member>, ghost all: Members)
      requires from <= pos <= |data| && pos - from <= WS(From(data, from))
      modifies this
      ensures all == MemberList(From(data, from), depth, {}) && (ok <==> all.Members?)
      ensures ok ==> old(pos) < pos <= |data| && pos == from + all.n && Noted(old(dupFound), all.dup)
      ensures ok && record ==> AllRecorded(data, members, all.list)
      decreases |data| - pos, 1
    {
      hide OneMember, MemberList, WS, From, Records, AllRecorded, Prepend;
      NoneRecorded(data);
      all := MemberList(From(data, from), depth, {});
      ghost var list: seq<Piece>, dup, at := [], false, from;
      PrependNone(all);
      NotedNone();
      var seen: set<string> := {};
      ghost var keys: set<string> := {};
      members := [];
      while true
        invariant from <= at <= pos <= |data| && old(pos) <= pos && pos - at <= WS(From(data, at))
        invariant all == Prepend(at - from, list, dup, MemberList(From(data, at), depth, keys))
        invariant (dupAny ==> seen == keys) && Noted(old(dupFound), dup)
        invariant record ==> AllRecorded(data, members, list)
        decreases |data| - pos
      {
        var m;
        ghost var r;
        ghost var was := dupFound;
        ok, m, r := RunMember(at, depth, seen);
        ListGoesOn(data, at, depth, keys, at - from, list, dup);
        if !ok {
          return;
        }
        if dupAny {
          seen := seen + {m.key};
        }
        if record {
          RecordMore(data, members, list, m, r.piece);
          members := members + [m];
        }
        pos := pos + 1;
        ghost var again := r.piece.name in keys || r.piece.dup;
        list, dup := list + [r.piece], dup || again;
        keys, at := keys + {r.piece.name}, pos;
        if data[pos - 1] == '}' {
          break;
        }
      }
    }

    /** An object at the position; the root's members are recorded. */
    method RunObject(depth: nat, record: bool) returns (ok: bool, members: seq<Member>, ghost all: Members)
      requires pos < |data|
      modifies this
      ensures all == Object(From(data, old(pos)), depth) && (ok <==> all.Members?)
      ensures ok ==> old(pos) < pos <= |data| && pos == old(pos) + all.n && Noted(old(dupFound), all.dup)
      ensures ok && record ==> AllRecorded(data, members, all.list)
      decreases |data| - pos, 1
    {
      hide MemberList, WS;
      ghost var start := pos;
      ok, members, all := false, [], BadMembers;
      if depth > MAX_NESTING {
        return;
      }
      FromFrom(data, start, 1);
      pos := pos + 1;
      SkipWS();
      FromFrom(data, start, pos - start);
      if pos < |data| && data[pos] == '}' {
        pos := pos + 1;
        ok, all := true, Members(pos - start, [], false);
        return;
      }
      ok, members, all := RunMembers(start + 1, depth, record);
      all := Object(From(data, start), depth);
    }

    /** An array at the position. */
    method RunArray(depth: nat) returns (ok: bool, ghost all: Elements)
      requires pos < |data|
      modifies this
      ensures all == Array(From(data, old(pos)), depth) && (ok <==> all.Elements?)
      ensures ok ==> old(pos) < pos <= |data| && pos == old(pos) + all.n && Noted(old(dupFound), all.dup)
      decreases |data| - pos, 1
    {
      hide ElementList, WS;
      ghost var start := pos;
      ok, all := false, BadElements;
      if depth > MAX_NESTING {
        return;
      }
      FromFrom(data, start, 1);
      pos := pos + 1;
      SkipWS();
      FromFrom(data, start, pos - start);
      if pos < |data| && data[pos] == ']' {
        pos := pos + 1;
        ok, all := true, Elements(pos - start, false);
        return;
      }
      ok, all := RunElements(start + 1, depth);
      all := Array(From(data, start), depth);
    }

    /** The elements of an array whose first element's text starts at from, to past its bracket. */
    method RunElements(ghost from: nat, depth: nat) returns (ok: bool, ghost all: Elements)
      requires from <= pos <= |data| && pos - from <= WS(From(data, from))
      modifies this
      ensures all == ElementList(From(data, from), depth) && (ok <==> all.Elements?)
      ensures ok ==> old(pos) < pos <= |data| && pos == from + all.n && Noted(old(dupFound), all.dup)
      decreases |data| - pos, 3
    {
      hide ElementList, Value, WS, From, Onward, Read;
      OnwardNone(ElementList(From(data, from), depth));
      all := ElementList(From(data, from), depth);
      ghost var dup, at := false, from;
      while true
        invariant from <= at <= pos <= |data| && old(pos) <= pos && pos - at <= WS(From(data, at))
        invariant all == Onward(at - from, dup, ElementList(From(data, at), depth)) && Noted(old(dupFound), dup)
        decreases |data| - pos
      {
        WSFrom(data, at, pos);
        SkipWS();
        ghost var start, was := pos, dupFound;
        ghost var v := Value(From(data, pos), depth);
        var kind, str, plain;
        ok, kind, str, plain := RunValue(depth);
        ValueRead(v, start, was, ok, kind, str, plain);
        if !ok {
          ElementFails(data, at, depth, start);
          OnwardBad(at - from, dup);
          return;
        }
        ghost var e := pos;
        SkipWS();
        ElementStep(data, at, depth, start, e, pos, v);
        OnwardBad(at - from, dup);
        OnwardMore(at - from, dup, pos + 1 - at, v.dup, if pos < |data| then ElementList(From(data, pos + 1), depth) else BadElements);
        if pos >= |data| || (data[pos] != ',' && data[pos] != ']') {
          ok := false;
          return;
        }
        pos := pos + 1;
        dup, at := dup || v.dup, pos;
        if data[pos - 1] == ']' {
          break;
        }
      }
    }
  }

  /** The scan of a whole text: its root, or that it is malformed. */
  method RunScan(data: string, dupAny: bool) returns (root: RootInfo)
    ensures root.NotAnObject? <==> Scan(data).Malformed?
    ensures root.RootInfo? ==> AllRecorded(data, root.members, Scan(data).list)
    ensures root.RootInfo? ==> root.open < root.close < |data|
    ensures root.RootInfo? ==> data[..root.open] == Scan(data).before && data[root.close + 1..] == Scan(data).after
    ensures root.RootInfo? ==> (root.repeated <==> dupAny && Scan(data).dup)
  {
    hide WS, Object, CleanText;
    if !CleanText(data) {
      return NotAnObject;
    }
    var r := new Reader(data, dupAny);
    assert From(data, 0) == data;
    r.SkipWS();
    var open := r.pos;
    if open >= |data| || data[open] != '{' {
      return NotAnObject;
    }
    var ok, members, all := r.RunObject(1, true);
    if !ok {
      return NotAnObject;
    }
    var close := r.pos - 1;
    RestIsWS(From(data, close + 1));
    r.SkipWS();
    if r.pos != |data| {
      return NotAnObject;
    }
    root := RootInfo(open, close, members, r.dupFound);
  }

  lemma RestIsWS(s: string)
    ensures WS(s) == |s| <==> AllWS(s)
  {
    if WS(s) == |s| {
      assert s[..WS(s)] == s;
    } else {
      assert s[WS(s)] in s;
    }
  }

  datatype RootInfo = NotAnObject | RootInfo(open: nat, close: nat, members: seq<Member>, repeated: bool)

  /** A root member as the scanner records it: where its key and value start and end. */
  datatype Member = Member(keyStart: nat, keyEnd: nat, valStart: nat, valEnd: nat,
                           key: string, plain: bool, kind: Kind, str: string, strPlain: bool)

  /** The offsets delimit the key, the colon and the value, and say what they decode to. */
  predicate Records(data: string, m: Member, p: Piece) {
    && m.keyStart <= m.keyEnd <= m.valStart <= m.valEnd <= |data|
    && data[m.keyStart..m.keyEnd] == p.key && data[m.keyEnd..m.valStart] == p.colon && data[m.valStart..m.valEnd] == p.val
    && m.key == p.name && m.plain == p.plain && m.kind == p.kind && m.str == p.str && m.strPlain == p.strPlain
  }

  predicate AllRecorded(data: string, members: seq<Member>, list: seq<Piece>) {
    |members| == |list| && forall i :: 0 <= i < |list| ==> Records(data, members[i], list[i])
  }

  lemma NoneRecorded(data: string)
    ensures AllRecorded(data, [], [])
  {
  }

  lemma RecordMore(data: string, members: seq<Member>, list: seq<Piece>, m: Member, p: Piece)
    requires AllRecorded(data, members, list) && Records(data, m, p)
    ensures AllRecorded(data, members + [m], list + [p])
  {
    hide Records;
  }

  lemma Slice(data: string, from: nat, a: nat, b: nat)
    requires from <= a <= b <= |data|
    ensures From(data, from)[a - from..b - from] == data[a..b]
  {
  }

  /** Whitespace skipped in two goes. */
  lemma {:induction false} WSFrom(data: string, from: nat, pos: nat)
    requires from <= pos <= |data| && pos - from <= WS(From(data, from))
    ensures WS(From(data, from)) == pos - from + WS(From(data, pos))
    decreases pos - from
  {
    if from < pos {
      FromFrom(data, from, 1);
      WSFrom(data, from + 1, pos);
    }
  }

  /** Members read so far, and the rest. */
  function Prepend(n: nat, list: seq<Piece>, dup: bool, rest: Members): Members {
    match rest
    case BadMembers => BadMembers
    case Members(m, more, d) => Members(n + m, list + more, dup || d)
  }

  lemma PrependPrepend(n: nat, a: seq<Piece>, d: bool, m: nat, b: seq<Piece>, e: bool, rest: Members)
    ensures Prepend(n, a, d, Prepend(m, b, e, rest)) == Prepend(n + m, a + b, d || e, rest)
  {
    if rest.Members? {
      Assoc(a, b, rest.list);
    }
  }

  function Onward(n: nat, dup: bool, rest: Elements): Elements {
    match rest
    case BadElements => BadElements
    case Elements(m, d) => Elements(n + m, dup || d)
  }

  lemma OnwardNone(all: Elements)
    ensures all == Onward(0, false, all)
  {
  }

  lemma OnwardBad(n: nat, dup: bool)
    ensures Onward(n, dup, BadElements) == BadElements
  {
  }

  lemma OnwardMore(n: nat, d: bool, m: nat, e: bool, rest: Elements)
    ensures Onward(n, d, Onward(m, e, rest)) == Onward(n + m, d || e, rest)
    ensures Onward(n, d, Elements(m, e)) == Elements(n + m, d || e)
  {
  }

  lemma StrOpens(data: string, pos: nat)
    requires pos < |data|
    ensures Str(From(data, pos)) == Then(1, "", true, StrTail(From(data, pos + 1)))
  {
    FromFrom(data, pos, 1);
  }

  lemma StrStep(data: string, pos: nat, n: nat, text: string, plain: bool)
    requires pos <= |data|
    ensures var h, t := HeadOf(From(data, pos)), Then(n, text, plain, StrTail(From(data, pos)));
            && (h.BadHead? ==> t == BadText)
            && (h.Close? ==> pos < |data| && t == Text(n + 1, text, plain))
            && (h.Next? ==> pos + h.k <= |data|)
            && (h.Next? ==> t == Then(n + h.k, text + h.piece, plain && h.plain, StrTail(From(data, pos + h.k))))
  {
    hide HeadOf, From;
    match HeadOf(From(data, pos))
    case BadHead =>
    case Close => assert text + "" == text;
    case Next(k, piece, p) =>
      FromFrom(data, pos, k);
      ThenThen(n, text, plain, k, piece, p, StrTail(From(data, pos + k)));
  }

  lemma KeyStarts(data: string, from: nat, a: nat)
    requires from <= a <= |data| && a == from + WS(From(data, from))
    ensures a >= |data| || data[a] != '"' || Str(From(data, a)).BadText? ==> KeyOf(From(data, from)) == BadKey
  {
    hide WS, Str;
    FromFrom(data, from, a - from);
  }

  lemma ColonAt(data: string, from: nat, b: nat, c: nat)
    requires from <= b <= c <= |data| && c == b + WS(From(data, b))
    ensures c >= |data| || data[c] != ':' ==> ColonAfter(From(data, from), b - from) == NoSpan
    ensures c < |data| && data[c] == ':' ==>
              && c + 1 + WS(From(data, c + 1)) <= |data|
              && ColonAfter(From(data, from), b - from) == Span(c + 1 + WS(From(data, c + 1)) - from)
  {
    hide WS;
    FromFrom(data, from, b - from);
    FromFrom(data, from, c - from);
    if c < |data| {
      FromFrom(data, from, c + 1 - from);
    }
    hide From;
  }

  lemma KeyEnds(data: string, from: nat, a: nat, b: nat, c: nat)
    requires from <= a < b <= c <= |data| && a == from + WS(From(data, from))
    requires data[a] == '"' && Str(From(data, a)).Text? && b == a + Str(From(data, a)).n
    requires c == b + WS(From(data, b))
    ensures c >= |data| || data[c] != ':' ==> KeyOf(From(data, from)) == BadKey
    ensures c < |data| && data[c] == ':' ==>
              && c + 1 + WS(From(data, c + 1)) <= |data|
              && KeyOf(From(data, from)) == KeyRead(a - from, b - from, c + 1 + WS(From(data, c + 1)) - from, Str(From(data, a)))
  {
    hide WS, Str, ColonAfter;
    FromFrom(data, from, a - from);
    ColonAt(data, from, b, c);
    hide From;
  }

  lemma MemberFails(data: string, from: nat, depth: nat)
    requires from <= |data|
    requires var k := KeyOf(From(data, from)); k.BadKey? || Value(From(data, from + k.d), depth).BadVal?
    ensures OneMember(From(data, from), depth) == BadMember
  {
    hide KeyOf, Value;
    var k := KeyOf(From(data, from));
    if k.KeyRead? {
      FromFrom(data, from, k.d);
    }
  }

  predicate KeyRecorded(k: KeyRead, from: nat, m: Member)
    requires from <= m.keyStart <= m.keyEnd <= m.valStart
  {
    && k.KeyRead? && k == KeyRead(m.keyStart - from, m.keyEnd - from, m.valStart - from, k.key)
    && k.key.Text? && k.key.text == m.key && k.key.plain == m.plain
  }

  predicate ValueRecorded(v: Val, m: Member)
    requires m.valStart <= m.valEnd
  {
    v.Val? && v == Val(m.valEnd - m.valStart, m.kind, m.str, m.strPlain, v.dup)
  }

  lemma MemberSpans(data: string, from: nat, k: KeyRead, v: Val, m: Member, g: nat)
    requires from <= m.keyStart <= m.keyEnd <= m.valStart <= m.valEnd <= g <= |data|
    requires KeyRecorded(k, from, m) && ValueRecorded(v, m) && g == m.valEnd + WS(From(data, m.valEnd))
    ensures var r := MemberOf(From(data, from), k, v);
            && (r.MemberRead? <==> g < |data| && (data[g] == ',' || data[g] == '}'))
            && (r.MemberRead? ==> g == from + r.end && Records(data, m, r.piece))
            && (r.MemberRead? ==> r.piece.name == m.key && r.piece.dup == v.dup)
  {
    hide WS, From;
    FromFrom(data, from, m.valEnd - from);
    FromFrom(data, from, g - from);
    Slice(data, from, m.keyStart, m.keyEnd);
    Slice(data, from, m.keyEnd, m.valStart);
    Slice(data, from, m.valStart, m.valEnd);
  }

  lemma MemberEnds(data: string, from: nat, depth: nat, m: Member, g: nat)
    requires from <= m.keyStart <= m.keyEnd <= m.valStart <= m.valEnd <= g <= |data|
    requires KeyRecorded(KeyOf(From(data, from)), from, m) && ValueRecorded(Value(From(data, m.valStart), depth), m)
    requires g == m.valEnd + WS(From(data, m.valEnd))
    ensures var r := OneMember(From(data, from), depth);
            && (r.MemberRead? <==> g < |data| && (data[g] == ',' || data[g] == '}'))
            && (r.MemberRead? ==> g == from + r.end && Records(data, m, r.piece))
            && (r.MemberRead? ==> r.piece.name == m.key && r.piece.dup == Value(From(data, m.valStart), depth).dup)
  {
    hide KeyOf, Value, WS, MemberOf, Records;
    FromFrom(data, from, m.valStart - from);
    hide From;
    MemberSpans(data, from, KeyOf(From(data, from)), Value(From(data, m.valStart), depth), m, g);
  }

  lemma PrependNone(all: Members)
    ensures all == Prepend(0, [], false, all)
  {
    if all.Members? {
      assert [] + all.list == all.list;
    }
  }

  lemma ListStep(data: string, at: nat, depth: nat, keys: set<string>)
    requires at <= |data|
    ensures var r, all := OneMember(From(data, at), depth), MemberList(From(data, at), depth, keys);
            && (r.BadMember? ==> all == BadMembers)
            && (r.MemberRead? ==> at + r.end < |data|)
            && (r.MemberRead? && data[at + r.end] == '}' ==>
                all == Members(r.end + 1, [r.piece], r.piece.name in keys || r.piece.dup))
            && (r.MemberRead? && data[at + r.end] != '}' ==>
                all == Prepend(r.end + 1, [r.piece], r.piece.name in keys || r.piece.dup,
                               MemberList(From(data, at + r.end + 1), depth, keys + {r.piece.name})))
  {
    hide OneMember;
    var r := OneMember(From(data, at), depth);
    if r.MemberRead? {
      FromFrom(data, at, r.end);
      FromFrom(data, at, r.end + 1);
    }
    hide From;
  }

  /** The members read so far and one more: the end, or what is still to come. */
  lemma ListGoesOn(data: string, at: nat, depth: nat, keys: set<string>, n: nat, list: seq<Piece>, dup: bool)
    requires at <= |data|
    ensures var r := OneMember(From(data, at), depth);
            var all := Prepend(n, list, dup, MemberList(From(data, at), depth, keys));
            && (r.BadMember? ==> all == BadMembers)
            && (r.MemberRead? ==> at + r.end < |data|)
            && (r.MemberRead? && data[at + r.end] == '}' ==>
                all == Members(n + r.end + 1, list + [r.piece], dup || (r.piece.name in keys || r.piece.dup)))
            && (r.MemberRead? && data[at + r.end] != '}' ==>
                all == Prepend(n + r.end + 1, list + [r.piece], dup || (r.piece.name in keys || r.piece.dup),
                               MemberList(From(data, at + r.end + 1), depth, keys + {r.piece.name})))
  {
    hide OneMember, MemberList, From, Prepend;
    ListStep(data, at, depth, keys);
    var r := OneMember(From(data, at), depth);
    PrependEnds(n, list, dup);
    if r.MemberRead? {
      var again := r.piece.name in keys || r.piece.dup;
      PrependLast(n, list, dup, r.end + 1, r.piece, again);
      if data[at + r.end] != '}' {
        PrependPrepend(n, list, dup, r.end + 1, [r.piece], again,
                       MemberList(From(data, at + r.end + 1), depth, keys + {r.piece.name}));
      }
    }
  }

  lemma PrependEnds(n: nat, list: seq<Piece>, dup: bool)
    ensures Prepend(n, list, dup, BadMembers) == BadMembers
  {
  }

  lemma PrependLast(n: nat, list: seq<Piece>, dup: bool, m: nat, p: Piece, d: bool)
    ensures Prepend(n, list, dup, Members(m, [p], d)) == Members(n + m, list + [p], dup || d)
  {
  }

  lemma ElementEnds(data: string, at: nat, e: nat, g: nat)
    requires at <= e <= g <= |data| && g == e + WS(From(data, e))
    ensures AfterElement(From(data, at), e - at) ==
            if g < |data| && (data[g] == ',' || data[g] == ']') then Span(g - at) else NoSpan
    ensures g < |data| ==> From(data, at)[g - at] == data[g] && From(data, at)[g - at + 1..] == From(data, g + 1)
  {
    hide WS;
    FromFrom(data, at, e - at);
    FromFrom(data, at, g - at);
    if g < |data| {
      FromFrom(data, at, g + 1 - at);
    }
  }

  lemma ElementFails(data: string, at: nat, depth: nat, start: nat)
    requires at <= start <= |data| && start == at + WS(From(data, at)) && Value(From(data, start), depth).BadVal?
    ensures ElementList(From(data, at), depth) == BadElements
  {
    hide Value, WS, AfterElement;
    FromFrom(data, at, start - at);
  }

  lemma ElementsAre(s: string, depth: nat, v: Val, g: Span)
    requires v == Value(s[WS(s)..], depth) && v.Val? && g == AfterElement(s, WS(s) + v.n)
    ensures g.NoSpan? ==> ElementList(s, depth) == BadElements
    ensures g.Span? && s[g.n] == ']' ==> ElementList(s, depth) == Elements(g.n + 1, v.dup)
    ensures g.Span? && s[g.n] != ']' ==> ElementList(s, depth) == Onward(g.n + 1, v.dup, ElementList(s[g.n + 1..], depth))
  {
    hide Value, WS, AfterElement, ElementList;
    ElementsOpen(s, depth);
  }

  lemma ElementStep(data: string, at: nat, depth: nat, start: nat, e: nat, g: nat, v: Val)
    requires at <= start <= e <= g <= |data| && start == at + WS(From(data, at))
    requires v == Value(From(data, start), depth) && v.Val? && e == start + v.n && g == e + WS(From(data, e))
    ensures var all := ElementList(From(data, at), depth);
            && (g >= |data| || (data[g] != ',' && data[g] != ']') ==> all == BadElements)
            && (g < |data| && data[g] == ']' ==> all == Elements(g + 1 - at, v.dup))
            && (g < |data| && data[g] == ',' ==>
                all == Onward(g + 1 - at, v.dup, ElementList(From(data, g + 1), depth)))
  {
    hide Value, WS, AfterElement, ElementList;
    FromFrom(data, at, start - at);
    ElementEnds(data, at, e, g);
    hide From;
    ElementsAre(From(data, at), depth, v, AfterElement(From(data, at), e - at));
  }

  lemma ThenThen(n: nat, a: string, p: bool, m: nat, b: string, q: bool, rest: Text)
    ensures Then(n, a, p, Then(m, b, q, rest)) == Then(n + m, a + b, p && q, rest)
  {
    if rest.Text? {
      assert a + (b + rest.text) == (a + b) + rest.text;
    }
  }

  // ---- the strings of a list ----

  /** Strings read so far, and the rest. */
  function Further(n: nat, list: seq<Elem>, rest: StringRead): StringRead {
    match rest
    case NotStrings => NotStrings
    case Strings(m, more) => Strings(n + m, list + more)
  }

  /** Where a string stands, quotes included. */
  datatype Slot = Slot(start: nat, end: nat)

  predicate Reads(data: string, at: Slot, text: string, e: Elem) {
    at.start <= at.end <= |data| && data[at.start..at.end] == e.raw && text == e.text
  }

  predicate AllReads(data: string, slots: seq<Slot>, texts: seq<string>, list: seq<Elem>) {
    |slots| == |texts| == |list| && forall i :: 0 <= i < |list| ==> Reads(data, slots[i], texts[i], list[i])
  }

  lemma ReadsMore(data: string, slots: seq<Slot>, texts: seq<string>, list: seq<Elem>, at: Slot, text: string, e: Elem)
    requires AllReads(data, slots, texts, list) && Reads(data, at, text, e)
    ensures AllReads(data, slots + [at], texts + [text], list + [e])
  {
    hide Reads;
  }

  /** An element of a validated array starts inside the text; if it is a string, so does what
      ends it. */
  lemma ElementThere(data: string, at: nat, depth: nat, a: nat)
    requires at <= |data| && ElementList(From(data, at), depth).Elements? && a == at + WS(From(data, at)) <= |data|
    ensures a < |data|
    ensures data[a] == '"' ==>
              && Str(From(data, a)).Text? && a + Str(From(data, a)).n <= |data|
              && var e := a + Str(From(data, a)).n;
                 e + WS(From(data, e)) < |data| && (data[e + WS(From(data, e))] == ',' || data[e + WS(From(data, e))] == ']')
    ensures data[a] == '"' && data[a + Str(From(data, a)).n + WS(From(data, a + Str(From(data, a)).n))] == ',' ==>
              ElementList(From(data, a + Str(From(data, a)).n + WS(From(data, a + Str(From(data, a)).n)) + 1), depth).Elements?
  {
    hide ElementList, WS, Str;
    FromFrom(data, a, 0);
    var v := Value(From(data, a), depth);
    if v.BadVal? {
      ElementFails(data, at, depth, a);
    } else {
      if data[a] == '"' {
        ValueIsStr(data, a, depth);
      }
      var e := a + v.n;
      var g := e + WS(From(data, e));
      ElementStep(data, at, depth, a, e, g, v);
    }
  }

  lemma ValueIsStr(data: string, a: nat, depth: nat)
    requires a < |data| && Value(From(data, a), depth).Val? && data[a] == '"'
    ensures Str(From(data, a)).Text? && Value(From(data, a), depth).n == Str(From(data, a)).n
  {
    hide Str, Object, Array, Number;
  }

  /** One more string of a list. */
  lemma StringStep(data: string, at: nat, n: nat, list: seq<Elem>)
    requires at <= |data|
    ensures var r := OneString(From(data, at));
            var all := Further(n, list, StringList(From(data, at)));
            && (r.BadElem? ==> all == NotStrings)
            && (r.OneRead? ==> at + r.end < |data|)
            && (r.OneRead? && data[at + r.end] == ']' ==> all == Strings(n + r.end + 1, list + [r.el]))
            && (r.OneRead? && data[at + r.end] != ']' ==>
                all == Further(n + r.end + 1, list + [r.el], StringList(From(data, at + r.end + 1))))
  {
    hide OneString, From;
    var r := OneString(From(data, at));
    if r.OneRead? {
      FromFrom(data, at, r.end);
      FromFrom(data, at, r.end + 1);
      var rest := StringList(From(data, at + r.end + 1));
      if rest.Strings? {
        Assoc(list, [r.el], rest.list);
      }
    }
  }

  lemma OneStringAt(data: string, at: nat, a: nat, e: nat, g: nat)
    requires at <= a < e <= g < |data| && a == at + WS(From(data, at)) && data[a] == '"'
    requires Str(From(data, a)).Text? && e == a + Str(From(data, a)).n && g == e + WS(From(data, e))
    requires data[g] == ',' || data[g] == ']'
    ensures OneString(From(data, at)) ==
            OneRead(Elem(data[at..a], data[a..e], data[e..g], Str(From(data, a)).text), g - at)
  {
    hide WS, Str, From, AfterElement;
    FromFrom(data, at, a - at);
    ElementEnds(data, at, e, g);
    Slice(data, at, at, a);
    Slice(data, at, a, e);
    Slice(data, at, e, g);
  }

  lemma NoStringAt(data: string, at: nat, a: nat)
    requires at <= a < |data| && a == at + WS(From(data, at)) && data[a] != '"'
    ensures OneString(From(data, at)) == BadElem
  {
    hide WS, Str;
    FromFrom(data, at, a - at);
  }

  /** One element of a list the scan has accepted, up to the comma or bracket behind it. No
      position it looks at is outside the text. */
  method RunOneString(s: Reader, ghost at: nat) returns (ok: bool, slot: Slot, text: string, ghost r: OneRead)
    requires at <= s.pos <= |s.data| && s.pos - at <= WS(From(s.data, at)) && ElementList(From(s.data, at), 2).Elements?
    modifies s`pos
    ensures r == OneString(From(s.data, at)) && (ok <==> r.OneRead?)
    ensures ok ==> old(s.pos) < s.pos < |s.data| && s.pos == at + r.end && Reads(s.data, slot, text, r.el)
    ensures ok ==> s.data[s.pos] == ',' || s.data[s.pos] == ']'
    ensures ok && s.data[s.pos] == ',' ==> ElementList(From(s.data, s.pos + 1), 2).Elements?
  {
    hide ElementList, WS, From, Str, OneString;
    r := OneString(From(s.data, at));
    ok, slot, text := false, Slot(0, 0), "";
    WSFrom(s.data, at, s.pos);
    s.SkipWS();
    ElementThere(s.data, at, 2, s.pos);
    if s.data[s.pos] != '"' {
      NoStringAt(s.data, at, s.pos);
      return;
    }
    var start := s.pos;
    var str := s.RunStr();
    if str.BadText? {
      // The scan has read this string before.
      assert false;
    }
    var end := s.pos;
    s.SkipWS();
    OneStringAt(s.data, at, start, end, s.pos);
    ok, slot, text := true, Slot(start, end), str.text;
  }

  /** The elements of an array the scan has accepted, when they are all strings. */
  method RunStringArray(data: string, valStart: nat) returns (ok: bool, entries: seq<string>, elems: seq<Slot>)
    requires valStart < |data| && data[valStart] == '[' && Array(From(data, valStart), 2).Elements?
    ensures ok <==> StringArray(From(data, valStart)).Strings?
    ensures ok ==> AllReads(data, elems, entries, StringArray(From(data, valStart)).list)
  {
    hide ElementList, StringList, WS, From, AllReads, Reads, Further, Array, StringArray, OneString;
    ghost var read := StringArray(From(data, valStart));
    ok, entries, elems := false, [], [];
    NoStringsYet(data);
    var s := new Reader(data, false);
    s.pos := valStart + 1;
    s.SkipWS();
    ArrayStarts(data, valStart, s.pos);
    if data[s.pos] == ']' {
      ok := true;
      return;
    }
    ghost var at := valStart + 1;
    ghost var list: seq<Elem> := [];
    while true
      invariant s.data == data && valStart < at <= s.pos <= |data| && s.pos - at <= WS(From(data, at))
      invariant ElementList(From(data, at), 2).Elements? && AllReads(data, elems, entries, list)
      invariant read == Further(at - valStart, list, StringList(From(data, at)))
      decreases |data| - s.pos
    {
      var slot, text;
      ghost var r;
      StringStep(data, at, at - valStart, list);
      ok, slot, text, r := RunOneString(s, at);
      if !ok {
        return;
      }
      ReadsMore(data, elems, entries, list, slot, text, r.el);
      entries, elems, list := entries + [text], elems + [slot], list + [r.el];
      s.pos := s.pos + 1;
      if data[s.pos - 1] != ',' {
        return;
      }
      at := s.pos;
    }
  }

  lemma NoStringsYet(data: string)
    ensures AllReads(data, [], [], [])
  {
  }

  /** Past the bracket of an accepted array and the whitespace there is a byte; a bracket means no
      elements, anything else that the elements follow. */
  lemma ArrayStarts(data: string, valStart: nat, pos: nat)
    requires valStart < |data| && data[valStart] == '[' && Array(From(data, valStart), 2).Elements?
    requires valStart < pos <= |data| && pos == valStart + 1 + WS(From(data, valStart + 1))
    ensures pos < |data|
    ensures data[pos] == ']' ==> StringArray(From(data, valStart)) == Strings(pos + 1 - valStart, [])
    ensures data[pos] != ']' ==>
              && ElementList(From(data, valStart + 1), 2).Elements?
              && StringArray(From(data, valStart)) == Further(1, [], StringList(From(data, valStart + 1)))
  {
    hide ElementList, StringList, WS;
    FromFrom(data, valStart, 1);
    FromFrom(data, valStart, pos - valStart);
    if pos == |data| {
      FromFrom(data, valStart + 1, pos - valStart - 1);
      NoElements(From(data, valStart + 1), 2);
    }
  }

  lemma NoElements(s: string, depth: nat)
    requires WS(s) == |s|
    ensures ElementList(s, depth) == BadElements
  {
    hide WS;
  }
}
