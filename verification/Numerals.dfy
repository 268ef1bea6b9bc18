/**
Numbers and lists as text: positional numerals in base ten and sixteen, and texts joined by a
separator, each read back to what was written.
*/
module Numerals {

  predicate IsBase(b: nat) { b == 10 || b == 16 }

  function Digit(d: nat): (c: char)
    requires d < 16
  {
    "0123456789abcdef"[d]
  }

  predicate IsDigitOf(c: char, b: nat)
    requires IsBase(b)
  {
    ('0' <= c <= '9') || (b == 16 && 'a' <= c <= 'f')
  }

  function DigitVal(c: char): (d: nat)
    requires IsDigitOf(c, 16)
    ensures d < 16
  {
    if c <= '9' then c as int - '0' as int else c as int - 'a' as int + 10
  }

  lemma DigitVals(d: nat, b: nat)
    requires IsBase(b) && d < b
    ensures IsDigitOf(Digit(d), b) && DigitVal(Digit(d)) == d
  {
    assert Digit(0) == '0' && Digit(9) == '9' && Digit(10) == 'a' && Digit(15) == 'f';
  }

  lemma ValDigits(c: char, b: nat)
    requires IsBase(b) && IsDigitOf(c, b)
    ensures DigitVal(c) < b && Digit(DigitVal(c)) == c
  {
  }

  predicate AllDigits(s: string, b: nat)
    requires IsBase(b)
  {
    forall c :: c in s ==> IsDigitOf(c, b)
  }

  function Div(n: nat, b: nat): (q: nat)
    requires IsBase(b)
    ensures n >= b ==> 0 < q < n
  {
    if b == 10 then n / 10 else n / 16
  }

  function Mod(n: nat, b: nat): (d: nat)
    requires IsBase(b)
    ensures d < b && (n < b ==> d == n)
  {
    if b == 10 then n % 10 else n % 16
  }

  function Compose(q: nat, d: nat, b: nat): (n: nat)
    requires IsBase(b)
    ensures (q > 0 ==> n >= b) && n >= d
  {
    if b == 10 then 10 * q + d else 16 * q + d
  }

  lemma DivMod(n: nat, b: nat)
    requires IsBase(b)
    ensures Compose(Div(n, b), Mod(n, b), b) == n
  {
  }

  lemma DivBack(q: nat, d: nat, b: nat)
    requires IsBase(b) && d < b
    ensures Div(Compose(q, d, b), b) == q && Mod(Compose(q, d, b), b) == d
  {
  }

  /** The numeral of a number, without leading zeros. */
  function Num(n: nat, b: nat): (s: string)
    requires IsBase(b)
    ensures |s| > 0
    decreases n
  {
    if n < b then [Digit(n)] else Num(Div(n, b), b) + [Digit(Mod(n, b))]
  }

  function Val(s: string, b: nat): nat
    requires IsBase(b) && AllDigits(s, b)
  {
    if |s| == 0 then 0
    else
      assert s[|s| - 1] in s;
      Compose(Val(s[..|s| - 1], b), DigitVal(s[|s| - 1]), b)
  }

  lemma ValSnoc(s: string, c: char, b: nat)
    requires IsBase(b) && AllDigits(s, b) && IsDigitOf(c, b)
    ensures AllDigits(s + [c], b) && Val(s + [c], b) == Compose(Val(s, b), DigitVal(c), b)
  {
    assert (s + [c])[..|s + [c]| - 1] == s;
  }

  lemma NumOpens(n: nat, b: nat)
    requires IsBase(b)
    ensures Num(n, b) == if n < b then [Digit(n)] else Num(Div(n, b), b) + [Digit(Mod(n, b))]
  {
  }

  /** A numeral is read back as its number. */
  lemma {:induction false} NumVal(n: nat, b: nat)
    requires IsBase(b)
    ensures AllDigits(Num(n, b), b) && Val(Num(n, b), b) == n
    decreases n
  {
    DivMod(n, b);
    DigitVals(Mod(n, b), b);
    NumOpens(n, b);
    hide Digit, DigitVal, IsDigitOf, Num, Div, Mod;
    if n < b {
      ValSnoc("", Digit(n), b);
      assert "" + [Digit(n)] == [Digit(n)];
    } else {
      NumVal(Div(n, b), b);
      ValSnoc(Num(Div(n, b), b), Digit(Mod(n, b)), b);
      hide Val, AllDigits;
    }
  }

  predicate NoLeadingZero(s: string) {
    |s| == 1 || (|s| > 1 && s[0] != '0')
  }

  lemma {:induction false} NumLeads(n: nat, b: nat)
    requires IsBase(b)
    ensures NoLeadingZero(Num(n, b)) && (n > 0 ==> Num(n, b)[0] != '0')
    decreases n
  {
    if n >= b {
      NumLeads(Div(n, b), b);
    }
  }

  lemma {:induction false} ValPositive(s: string, b: nat)
    requires IsBase(b) && AllDigits(s, b) && |s| > 0 && s[0] != '0'
    ensures Val(s, b) > 0
  {
    assert s[|s| - 1] in s;
    if |s| > 1 {
      ValPositive(s[..|s| - 1], b);
    }
  }

  /** A text of digits is its number's numeral exactly if it has no leading zero. */
  lemma {:induction false} ValNumIff(s: string, b: nat)
    requires IsBase(b) && AllDigits(s, b) && |s| > 0
    ensures Num(Val(s, b), b) == s <==> NoLeadingZero(s)
  {
    if NoLeadingZero(s) {
      ValNum(s, b);
    } else {
      NumLeads(Val(s, b), b);
    }
  }

  lemma {:induction false} ValNum(s: string, b: nat)
    requires IsBase(b) && AllDigits(s, b) && NoLeadingZero(s)
    ensures Num(Val(s, b), b) == s
  {
    var init, c := s[..|s| - 1], s[|s| - 1];
    assert c in s && s == init + [c];
    ValDigits(c, b);
    ValSnoc(init, c, b);
    hide Digit, DigitVal, IsDigitOf;
    if |s| > 1 {
      ValPositive(init, b);
      ValNum(init, b);
      DivBack(Val(init, b), DigitVal(c), b);
      hide Val, AllDigits, NoLeadingZero;
    } else {
      assert Val(init, b) == 0;
    }
  }

  function Power(b: nat, k: nat): nat {
    if k == 0 then 1 else b * Power(b, k - 1)
  }

  lemma {:induction false} NumLength(n: nat, b: nat, k: nat)
    requires IsBase(b) && k > 0 && n < Power(b, k)
    ensures |Num(n, b)| <= k
    decreases n
  {
    if n >= b {
      assert k > 1;
      NumLength(Div(n, b), b, k - 1);
    }
  }

  // ---- lists joined by a separator ----

  predicate Free(s: string, sep: char) { sep !in s }

  predicate AllFree(list: seq<string>, sep: char) {
    forall t :: t in list ==> Free(t, sep)
  }

  function Join(list: seq<string>, sep: char): string {
    if |list| == 0 then "" else if |list| == 1 then list[0] else list[0] + [sep] + Join(list[1..], sep)
  }

  /** Where the separator first stands, or the length. */
  function Find(s: string, sep: char): (i: nat)
    ensures i <= |s| && sep !in s[..i]
    ensures i < |s| ==> s[i] == sep
  {
    if |s| == 0 || s[0] == sep then 0
    else
      var i := 1 + Find(s[1..], sep);
      assert s[..i] == [s[0]] + s[1..][..i - 1];
      i
  }

  function Split(s: string, sep: char): (list: seq<string>)
    ensures |list| > 0
    decreases |s|
  {
    var i := Find(s, sep);
    if i == |s| then [s] else [s[..i]] + Split(s[i + 1..], sep)
  }

  lemma {:induction false} FindAfter(t: string, rest: string, sep: char)
    requires Free(t, sep)
    ensures Find(t + [sep] + rest, sep) == |t|
  {
    if |t| > 0 {
      assert (t + [sep] + rest)[1..] == t[1..] + [sep] + rest;
      FindAfter(t[1..], rest, sep);
    }
  }

  lemma FindNone(t: string, sep: char)
    requires Free(t, sep)
    ensures Find(t, sep) == |t|
  {
  }

  lemma SplitFirst(t: string, rest: string, sep: char)
    requires Free(t, sep)
    ensures Split(t + [sep] + rest, sep) == [t] + Split(rest, sep)
  {
    hide Find;
    var s := t + [sep] + rest;
    FindAfter(t, rest, sep);
    assert s[..|t|] == t && s[|t| + 1..] == rest;
  }

  /** Texts free of the separator are split back as they were joined. */
  lemma {:induction false} SplitJoin(list: seq<string>, sep: char)
    requires |list| > 0 && AllFree(list, sep)
    ensures Split(Join(list, sep), sep) == list
  {
    assert list[0] in list;
    if |list| == 1 {
      FindNone(list[0], sep);
      assert list == [list[0]];
    } else {
      var rest := Join(list[1..], sep);
      assert Join(list, sep) == list[0] + [sep] + rest;
      SplitJoin(list[1..], sep);
      hide Split, Join;
      SplitFirst(list[0], rest, sep);
      assert list == [list[0]] + list[1..];
    }
  }

  lemma {:induction false} SplitFree(s: string, sep: char)
    ensures AllFree(Split(s, sep), sep)
    decreases |s|
  {
    var i := Find(s, sep);
    if i == |s| {
      assert s[..i] == s;
    } else {
      SplitFree(s[i + 1..], sep);
    }
  }

  lemma {:induction false} JoinSplit(s: string, sep: char)
    ensures Join(Split(s, sep), sep) == s
    decreases |s|
  {
    hide Split, Find, Join;
    var i := Find(s, sep);
    SplitOpens(s, sep);
    if i < |s| {
      var rest := Split(s[i + 1..], sep);
      JoinSplit(s[i + 1..], sep);
      JoinCons(s[..i], rest, sep);
      CutAt(s, i);
    } else {
      JoinOne(s, sep);
    }
  }

  lemma SplitOpens(s: string, sep: char)
    ensures var i := Find(s, sep);
            Split(s, sep) == if i == |s| then [s] else [s[..i]] + Split(s[i + 1..], sep)
  {
    hide Find;
  }

  lemma JoinOne(s: string, sep: char)
    ensures Join([s], sep) == s
  {
  }

  lemma CutAt(s: string, i: nat)
    requires i < |s|
    ensures s == s[..i] + [s[i]] + s[i + 1..]
  {
  }

  lemma JoinCons(t: string, rest: seq<string>, sep: char)
    requires |rest| > 0
    ensures Join([t] + rest, sep) == t + [sep] + Join(rest, sep)
  {
    assert ([t] + rest)[1..] == rest;
  }

  /** A text joined from pieces has only their characters and the separator. */
  lemma {:induction false} JoinChars(list: seq<string>, sep: char, c: char)
    requires c in Join(list, sep) && c != sep
    ensures exists t :: t in list && c in t
  {
    if |list| == 1 {
      assert list[0] in list;
    } else if |list| > 1 {
      if c in list[0] {
        assert list[0] in list;
      } else {
        JoinChars(list[1..], sep, c);
        var t :| t in list[1..] && c in t;
        assert t in list;
      }
    }
  }
}
