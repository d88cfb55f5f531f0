// Printing and parsing of Idefix errors.
module Errors {
  import opened Prelude
  import opened Text

  const INT64_MIN := -0x8000_0000_0000_0000
  const INT64_MAX := 0x7fff_ffff_ffff_ffff

  type Code = c: int | INT64_MIN <= c <= INT64_MAX

  datatype IdefixError = IdefixError(code: Code, message: string, extra: string)

  predicate IsParen(c: char) {
    c == '(' || c == ')'
  }

  predicate NoParens(s: string) {
    forall i :: 0 <= i < |s| ==> !IsParen(s[i])
  }

  // The position of the first parenthesis, or |s|.
  function FirstParen(s: string): (i: nat)
    ensures i <= |s| && (i < |s| ==> IsParen(s[i])) && forall j :: 0 <= j < i ==> !IsParen(s[j])
  {
    if s == "" || IsParen(s[0]) then 0 else 1 + FirstParen(s[1..])
  }

  lemma FirstParenIs(s: string, i: nat)
    requires i <= |s| && (i < |s| ==> IsParen(s[i])) && forall j :: 0 <= j < i ==> !IsParen(s[j])
    ensures FirstParen(s) == i
  {
    var k := FirstParen(s);
    assert !(k < i) && !(i < k);
  }

  // IdefixError.Error
  function Print(e: IdefixError): string {
    "[" + PrintInt(e.code) + "]"
    + (if e.message != "" then " " + e.message else "")
    + (if e.extra != "" then " (" + e.extra + ")" else "")
  }

  // ---- the pattern that Parse matches

  // The optional last group: a space and a non-empty text in parentheses.
  function Tail(extra: string): string {
    if extra == "" then "" else " (" + extra + ")"
  }

  // text matches the regular expression with these groups.
  predicate Matches(text: string, numeral: string, message: string, extra: string) {
    IsNumeral(numeral) && NoParens(message) && text == "[" + numeral + "] " + message + Tail(extra)
  }

  lemma TailAt(s: string, p: nat)
    requires 1 <= p && p + 3 <= |s| && s[p - 1] == ' ' && s[p] == '(' && s[|s| - 1] == ')'
    ensures s == s[..p - 1] + Tail(s[p + 1..|s| - 1])
  {
    var extra := s[p + 1..|s| - 1];
    assert |extra| == |s| - p - 2 && extra != "";
    assert s[p - 1..] == " (" + extra + ")";
  }

  // The text after the bracketed numeral and one space, split at its first parenthesis.
  function ParseRest(s: string): (r: Option<(string, string)>)
    ensures r.Some? ==> NoParens(r.value.0) && s == r.value.0 + Tail(r.value.1)
  {
    var p := FirstParen(s);
    if p == |s| then Some((s, ""))
    else if p >= 1 && s[p - 1] == ' ' && s[p] == '(' && |s| >= p + 3 && s[|s| - 1] == ')' then
      TailAt(s, p);
      Some((s[..p - 1], s[p + 1..|s| - 1]))
    else None
  }

  // The groups of the match, if there is one.
  function Groups(text: string): (r: Option<(string, string, string)>)
    ensures r.Some? ==> Matches(text, r.value.0, r.value.1, r.value.2)
  {
    if text == "" || text[0] != '[' then None
    else
      var j := IndexOf(text, ']');
      if j + 1 < |text| && j >= 1 && IsNumeral(text[1..j]) && text[j + 1] == ' ' then
        var rest := ParseRest(text[j + 2..]);
        assert text == "[" + text[1..j] + "] " + text[j + 2..];
        if rest.Some? then Some((text[1..j], rest.value.0, rest.value.1)) else None
      else None
  }

  // Parse; None stands for its error.
  function Parse(text: string): Option<IdefixError> {
    var g := Groups(text);
    if g.None? then None
    else
      var code := NumeralValue(g.value.0);
      if INT64_MIN <= code <= INT64_MAX then Some(IdefixError(code, g.value.1, g.value.2)) else None
  }

  lemma NumeralHasNoBracket(s: string)
    requires IsNumeral(s)
    ensures forall i :: 0 <= i < |s| ==> s[i] != ']'
  {
    forall i | 0 <= i < |s| ensures s[i] != ']' {
      if s[0] == '-' && i > 0 {
        assert s[i] == s[1..][i - 1];
      }
    }
  }

  lemma ParseRestIs(message: string, extra: string)
    requires NoParens(message)
    ensures ParseRest(message + Tail(extra)) == Some((message, extra))
  {
    if extra == "" {
      FirstParenIs(message, |message|);
      assert message + "" == message;
    } else {
      ParseRestWithExtra(message + Tail(extra), message, extra);
    }
  }

  lemma ParseRestWithExtra(s: string, message: string, extra: string)
    requires NoParens(message) && extra != "" && s == message + " (" + extra + ")"
    ensures ParseRest(s) == Some((message, extra))
  {
    var p := |message| + 1;
    assert s[..p] == message + " ";
    forall j | 0 <= j < p ensures !IsParen(s[j]) {
      assert s[j] == s[..p][j];
    }
    FirstParenIs(s, p);
    assert s[p + 1..|s| - 1] == extra && s[..p - 1] == message;
  }

  // Where the numeral ends and what comes after it.
  lemma BracketAt(text: string, numeral: string, rest: string)
    requires IsNumeral(numeral) && text == "[" + numeral + "] " + rest
    ensures var j := IndexOf(text, ']');
            j == |numeral| + 1 && j + 1 < |text| && text[1..j] == numeral && text[j + 1] == ' ' && text[j + 2..] == rest
  {
    NumeralHasNoBracket(numeral);
    var j := |numeral| + 1;
    var head := "[" + numeral + "] ";
    assert |head| == j + 2 && head[j] == ']' && head[1..j] == numeral;
    forall i | 0 <= i < j ensures text[i] != ']' {
      assert text[i] == head[i];
    }
    IndexOfIs(text, ']', j);
  }

  // A match is found whenever there is one, and there is only one.
  lemma GroupsComplete(text: string, numeral: string, message: string, extra: string)
    requires Matches(text, numeral, message, extra)
    ensures Groups(text) == Some((numeral, message, extra))
  {
    var rest := message + Tail(extra);
    assert text == "[" + numeral + "] " + rest;
    BracketAt(text, numeral, rest);
    ParseRestIs(message, extra);
  }

  // Parse answers with an error value exactly when the text matches with that value.
  lemma ParseExactly(text: string, e: IdefixError)
    ensures Parse(text) == Some(e) <==>
            exists numeral :: Matches(text, numeral, e.message, e.extra) && NumeralValue(numeral) == e.code
  {
    if numeral :| Matches(text, numeral, e.message, e.extra) && NumeralValue(numeral) == e.code {
      GroupsComplete(text, numeral, e.message, e.extra);
    }
  }

  // Codes are the integers of 64 bits; a greater or smaller one is an error.
  lemma CodesAre(c: int, message: string)
    requires NoParens(message)
    ensures var r := Parse("[" + PrintInt(c) + "] " + message);
            if -9_223_372_036_854_775_808 <= c <= 9_223_372_036_854_775_807
            then r.Some? && r.value.code == c && r.value.message == message && r.value.extra == "" else r.None?
  {
    var text := "[" + PrintInt(c) + "] " + message;
    assert text == text + Tail("");
    NumeralOfPrint(c);
    GroupsComplete(text, PrintInt(c), message, "");
  }

  // The printed form: the code in brackets, then the message and the extra text, if any.
  lemma PrintsAs(e: IdefixError)
    ensures e.message == "" && e.extra == "" ==> Print(e) == "[" + PrintInt(e.code) + "]"
    ensures e.message != "" && e.extra == "" ==> Print(e) == "[" + PrintInt(e.code) + "] " + e.message
    ensures e.message == "" && e.extra != "" ==> Print(e) == "[" + PrintInt(e.code) + "] (" + e.extra + ")"
    ensures e.message != "" && e.extra != "" ==> Print(e) == "[" + PrintInt(e.code) + "] " + e.message + " (" + e.extra + ")"
  {
    var n := "[" + PrintInt(e.code) + "]";
    assert n + "" == n && n + (" " + e.message) + "" == n + " " + e.message;
  }

  // ---- round trip

  // What Error prints, Parse reads back, exactly when the message is neither empty nor
  // contains a parenthesis; code and extra text may be anything.
  lemma RoundTripExactly(e: IdefixError)
    ensures Parse(Print(e)) == Some(e) <==> e.message != "" && NoParens(e.message)
  {
    var n := PrintInt(e.code);
    var text := Print(e);
    NumeralOfPrint(e.code);
    if e.message != "" && NoParens(e.message) {
      assert text == "[" + n + "] " + e.message + Tail(e.extra);
      GroupsComplete(text, n, e.message, e.extra);
    } else if e.message == "" {
      NoMessageNoMatch(e);
    }
  }

  lemma NoMessageNoMatch(e: IdefixError)
    requires e.message == ""
    ensures Groups(Print(e)).None?
  {
    var n := PrintInt(e.code);
    var text := Print(e);
    assert text == "[" + n + "]" + Tail(e.extra);
    var j := |n| + 1;
    NumeralHasNoBracket(n);
    assert text[j] == ']';
    IndexOfIs(text, ']', j);
    if e.extra != "" {
      var s := text[j + 2..];
      assert s[0] == '(';
      FirstParenIs(s, 0);
    }
  }

  // ---- identity

  // The error an Is call is about: one of this type, or any other, known by its text.
  datatype Other = Typed(e: IdefixError) | Foreign(text: string)

  predicate Is(e: IdefixError, other: Other) {
    match other
    case Typed(o) => e.code == o.code
    case Foreign(text) =>
      var p := Parse(text);
      p.Some? && e.code == p.value.code
  }

  // Two errors are the same if their codes are; any other error is, if its text is that of an
  // error with this code.
  lemma IsExactly(e: IdefixError, o: IdefixError, text: string)
    ensures Is(e, Typed(o)) <==> e.code == o.code
    ensures Is(e, Foreign(text)) <==>
            exists numeral, message, extra :: Matches(text, numeral, message, extra) && NumeralValue(numeral) == e.code
  {
    if Is(e, Foreign(text)) {
      var f := Parse(text).value;
      ParseExactly(text, f);
    }
    if numeral, message, extra :| Matches(text, numeral, message, extra) && NumeralValue(numeral) == e.code {
      ParseExactly(text, IdefixError(e.code, message, extra));
    }
  }

  // Going through text does not change which errors are the same, whatever the extra.
  lemma IsSurvivesText(e: IdefixError, other: IdefixError, extra: string)
    requires other.message != "" && NoParens(other.message)
    ensures Is(e, Foreign(Print(other.(extra := extra)))) <==> Is(e, Typed(other))
  {
    RoundTripExactly(other.(extra := extra));
  }

  // ---- texts

  // A code, a message without parentheses, and an extra text that may have them.
  lemma ParsesAs(c: Code, message: string, extra: string)
    requires NoParens(message) && extra != ""
    ensures Parse("[" + PrintInt(c) + "] " + message + " (" + extra + ")") == Some(IdefixError(c, message, extra))
    ensures Parse("[" + PrintInt(c) + "] " + message) == Some(IdefixError(c, message, ""))
  {
    var start := "[" + PrintInt(c) + "] " + message;
    NumeralOfPrint(c);
    assert start + " (" + extra + ")" == start + Tail(extra) && start == start + Tail("");
    GroupsComplete(start + " (" + extra + ")", PrintInt(c), message, extra);
    GroupsComplete(start, PrintInt(c), message, "");
  }

  // Without brackets, without the space after them, or with a parenthesis in the message, a
  // text is not that of an error.
  lemma NotErrors(text: string)
    requires text == "" || text[0] != '['
    ensures Parse(text) == None && Parse("[7]") == None && Parse("[7] a)") == None && Parse("[] a") == None
  {
    IndexOfIs("[7]", ']', 2);
    IndexOfIs("[] a", ']', 1);
    IndexOfIs("[7] a)", ']', 2);
    assert "[7] a)"[4..] == "a)";
    FirstParenIs("a)", 1);
  }
}
