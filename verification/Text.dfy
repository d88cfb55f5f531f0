// Text handling the Go standard library does for the modelled code: decimal numbers, and
// splitting and joining at a separator.
module Text {
  import opened Prelude

  // ---- decimal numbers

  predicate IsDigit(c: char) {
    '0' <= c <= '9'
  }

  predicate AllDigits(s: string) {
    forall i :: 0 <= i < |s| ==> IsDigit(s[i])
  }

  function DigitValue(c: char): nat
    requires IsDigit(c)
  {
    c as int - '0' as int
  }

  function Digit(n: nat): (c: char)
    requires n < 10
    ensures IsDigit(c) && DigitValue(c) == n
  {
    ('0' as int + n) as char
  }

  // fmt's %d of a natural number
  function PrintNat(n: nat): (s: string)
    ensures s != "" && AllDigits(s)
  {
    if n < 10 then [Digit(n)] else PrintNat(n / 10) + [Digit(n % 10)]
  }

  function ParseNat(s: string): nat
    requires AllDigits(s)
  {
    if s == "" then 0 else ParseNat(s[..|s| - 1]) * 10 + DigitValue(s[|s| - 1])
  }

  lemma {:induction false} ParsePrintNat(n: nat)
    ensures ParseNat(PrintNat(n)) == n
  {
    if n >= 10 {
      ParsePrintNat(n / 10);
      assert PrintNat(n)[..|PrintNat(n)| - 1] == PrintNat(n / 10);
    } else {
      assert PrintNat(n)[..0] == "";
    }
  }

  // fmt's %d
  function PrintInt(i: int): (s: string)
    ensures IsNumeral(s)
  {
    if i < 0 then "-" + PrintNat(-i) else PrintNat(i)
  }

  // [-]?[0-9]+
  predicate IsNumeral(s: string) {
    s != "" && if s[0] == '-' then |s| > 1 && AllDigits(s[1..]) else AllDigits(s)
  }

  function NumeralValue(s: string): int
    requires IsNumeral(s)
  {
    if s[0] == '-' then 0 - ParseNat(s[1..]) else ParseNat(s)
  }

  lemma NumeralOfPrint(i: int)
    ensures NumeralValue(PrintInt(i)) == i
  {
    if i < 0 {
      ParsePrintNat(-i);
      assert PrintInt(i)[1..] == PrintNat(-i);
    } else {
      ParsePrintNat(i);
    }
  }

  lemma PrintIntInjective(i: int, j: int)
    requires PrintInt(i) == PrintInt(j)
    ensures i == j
  {
    NumeralOfPrint(i);
    NumeralOfPrint(j);
  }

  // ---- searching

  // The first position of a character, or |s|.
  function IndexOf(s: string, c: char): (i: nat)
    ensures i <= |s| && (i < |s| ==> s[i] == c) && forall j :: 0 <= j < i ==> s[j] != c
  {
    if s == "" || s[0] == c then 0 else 1 + IndexOf(s[1..], c)
  }

  lemma IndexOfIs(s: string, c: char, i: nat)
    requires i <= |s| && (i < |s| ==> s[i] == c) && forall j :: 0 <= j < i ==> s[j] != c
    ensures IndexOf(s, c) == i
  {
    var k := IndexOf(s, c);
    assert !(k < i) && !(i < k);
  }

  // ---- splitting and joining

  // strings.Split with a separator of one character
  function Split(s: string, sep: char): (parts: seq<string>)
    ensures parts != [] && forall i :: 0 <= i < |parts| ==> sep !in parts[i]
  {
    var i := IndexOf(s, sep);
    if i == |s| then [s] else [s[..i]] + Split(s[i + 1..], sep)
  }

  // strings.Join with a separator of one character
  function Join(parts: seq<string>, sep: char): string {
    if parts == [] then ""
    else if |parts| == 1 then parts[0]
    else parts[0] + [sep] + Join(parts[1..], sep)
  }

  lemma SplitNone(s: string, sep: char)
    requires sep !in s
    ensures Split(s, sep) == [s]
  {
    IndexOfIs(s, sep, |s|);
  }

  lemma SplitCons(u: string, v: string, sep: char)
    requires sep !in u
    ensures Split(u + [sep] + v, sep) == [u] + Split(v, sep)
  {
    var t := u + [sep] + v;
    IndexOfIs(t, sep, |u|);
    assert t[..|u|] == u && t[|u| + 1..] == v;
  }

  lemma JoinCons(u: string, parts: seq<string>, sep: char)
    requires parts != []
    ensures Join([u] + parts, sep) == u + [sep] + Join(parts, sep)
  {
    assert ([u] + parts)[1..] == parts;
  }

  lemma {:induction false} JoinSplit(s: string, sep: char)
    ensures Join(Split(s, sep), sep) == s
    decreases |s|
  {
    var i := IndexOf(s, sep);
    if i < |s| {
      var u, v := s[..i], s[i + 1..];
      assert s == u + [sep] + v;
      JoinSplit(v, sep);
      SplitCons(u, v, sep);
      JoinCons(u, Split(v, sep), sep);
    } else {
      SplitNone(s, sep);
    }
  }

  lemma {:induction false} SplitJoin(parts: seq<string>, sep: char)
    requires parts != [] && forall i :: 0 <= i < |parts| ==> sep !in parts[i]
    ensures Split(Join(parts, sep), sep) == parts
    decreases |parts|
  {
    if |parts| == 1 {
      assert sep !in parts[0];
      SplitNone(parts[0], sep);
    } else {
      var rest := parts[1..];
      assert parts == [parts[0]] + rest && sep !in parts[0];
      SplitJoin(rest, sep);
      JoinCons(parts[0], rest, sep);
      SplitCons(parts[0], Join(rest, sep), sep);
    }
  }

  lemma SplitSize(s: string, sep: char)
    ensures |Split(s, sep)| >= 2 <==> sep in s
  {
    if sep !in s {
      SplitNone(s, sep);
    }
  }

  // ---- lower case

  function LowerChar(c: char): char {
    if 'A' <= c <= 'Z' then (c as int + 32) as char else c
  }

  // strings.ToLower on ASCII text
  function ToLower(s: string): (r: string)
    ensures |r| == |s|
  {
    seq(|s|, i requires 0 <= i < |s| => LowerChar(s[i]))
  }

  lemma LowerIsSame(s: string)
    requires forall i :: 0 <= i < |s| ==> !('A' <= s[i] <= 'Z')
    ensures ToLower(s) == s
  {
  }

  // Capital letters become small ones, and nothing else changes.
  lemma LowerIs(s: string)
    ensures |ToLower(s)| == |s|
    ensures forall i :: 0 <= i < |s| ==>
              if 'A' <= s[i] <= 'Z' then 'a' <= ToLower(s)[i] <= 'z' && ToLower(s)[i] as int - 'a' as int == s[i] as int - 'A' as int
              else ToLower(s)[i] == s[i]
    ensures ToLower(ToLower(s)) == ToLower(s)
  {
  }

  // Ten digits, the first the most significant.
  lemma PrintExamples()
    ensures PrintInt(-1203) == "-1203" && PrintInt(0) == "0" && PrintInt(9) == "9"
  {
    assert PrintNat(12) == "1" + "2" == "12";
    assert PrintNat(120) == PrintNat(12) + "0" == "120";
    assert PrintNat(1203) == PrintNat(120) + "3" == "1203";
  }

  lemma MoreExamples()
    ensures PrintInt(45678) == "45678"
  {
    assert PrintNat(45678) == PrintNat(4567) + "8" && PrintNat(4567) == PrintNat(456) + "7";
    assert PrintNat(456) == PrintNat(45) + "6" && PrintNat(45) == "4" + "5";
  }

  lemma ParseExample()
    ensures IsNumeral("-0047") && NumeralValue("-0047") == -47
  {
    assert "-0047"[1..] == "0047" && "0047"[..3] == "004" && "004"[..2] == "00" && "00"[..1] == "0" && "0"[..0] == "";
  }
}
