// What expressions answer: each operator in terms of the values it compares, and the lists in
// terms of their items.
module Meaning {
  import opened Prelude
  import opened Text
  import opened Eval

  // ---- fields

  // A field of the environment is found under its name.
  lemma FieldIs(env: Env, key: string)
    requires '.' !in key
    ensures GetEnvValue(env, key) == if key in env then env[key] else Null
  {
  }

  // A dotted name descends into a map; there is nothing in what is not a map.
  lemma NestedFieldIs(env: Env, a: string, b: string)
    requires '.' !in a
    ensures GetEnvValue(env, a + "." + b) == if a in env && env[a].Dict? then GetEnvValue(env[a].m, b) else Null
  {
    SplitCons(a, b, '.');
    JoinSplit(b, '.');
    assert Split(a + "." + b, '.')[1..] == Split(b, '.');
    assert (a + "." + b)[|a|] == '.';
  }

  // ---- one field and one operator

  predicate IsName(key: string) {
    key == "" || key[0] != '$'
  }

  // { key: { op: y } }
  function Ask(re: Regex, key: string, op: string, y: Value, env: Env, iden: string): Outcome {
    EvalExpr(re, Op(key, Op(op, y)), env, iden)
  }

  lemma NamesAreNotOperators(key: string)
    requires IsName(key)
    ensures key !in ["$not", "$exists", "$or", "$and", "$nor", "$true", "$false"]
  {
    var ops := ["$not", "$exists", "$or", "$and", "$nor", "$true", "$false"];
    forall i | 0 <= i < |ops| ensures key != ops[i] {
      assert ops[i][0] == '$';
    }
  }

  lemma AskIs(re: Regex, key: string, op: string, y: Value, env: Env, iden: string)
    requires IsName(key)
    ensures var x := GetEnvValue(env, key);
            Ask(re, key, op, y, env, iden) == Outcome(if x.Null? then InvalidEnvItem else EvalCmp(re, y, x, op), key)
  {
    NamesAreNotOperators(key);
    OnlyKeyOf(key, Op(op, y));
    OnlyKeyOf(op, y);
    var names := ["$not", "$exists", "$or", "$and", "$nor", "$true", "$false"];
    assert key != names[0] && key != names[1] && key != names[2] && key != names[3];
    assert key != names[4] && key != names[5] && key != names[6];
  }

  // Two values that are numbers or truth values, as these numbers.
  predicate IsNumber(x: Value, a: real) {
    match x
    case Num(_, r) => a == r
    case Bool(b) => a == if b then 1.0 else 0.0
    case _ => false
  }

  // Numbers are compared by size, whatever their kind, and true and false as 1 and 0.
  lemma NumbersCompare(re: Regex, key: string, y: Value, b: real, env: Env, iden: string, a: real)
    requires IsName(key) && IsNumber(GetEnvValue(env, key), a) && IsNumber(y, b)
    ensures Ask(re, key, "$eq", y, env, iden) == Outcome(if a == b then OK else NotMatch, key)
    ensures Ask(re, key, "$ne", y, env, iden) == Outcome(if a != b then OK else NotMatch, key)
    ensures Ask(re, key, "$gt", y, env, iden) == Outcome(if a > b then OK else NotMatch, key)
    ensures Ask(re, key, "$gte", y, env, iden) == Outcome(if a >= b then OK else NotMatch, key)
    ensures Ask(re, key, "$lt", y, env, iden) == Outcome(if a < b then OK else NotMatch, key)
    ensures Ask(re, key, "$lte", y, env, iden) == Outcome(if a <= b then OK else NotMatch, key)
  {
    var x := GetEnvValue(env, key);
    assert AsReal(x) == a && AsReal(y) == b && Comparable(y, x);
    Orderings(re, key, y, env, iden);
  }

  lemma Orderings(re: Regex, key: string, y: Value, env: Env, iden: string)
    requires IsName(key) && Comparable(y, GetEnvValue(env, key))
    ensures var c := Cmp(GetEnvValue(env, key), y);
            && Ask(re, key, "$eq", y, env, iden) == Outcome(if c == 0 then OK else NotMatch, key)
            && Ask(re, key, "$ne", y, env, iden) == Outcome(if c != 0 then OK else NotMatch, key)
            && Ask(re, key, "$gt", y, env, iden) == Outcome(if c > 0 then OK else NotMatch, key)
            && Ask(re, key, "$gte", y, env, iden) == Outcome(if c >= 0 then OK else NotMatch, key)
            && Ask(re, key, "$lt", y, env, iden) == Outcome(if c < 0 then OK else NotMatch, key)
            && Ask(re, key, "$lte", y, env, iden) == Outcome(if c <= 0 then OK else NotMatch, key)
  {
    AreOrderings();
    OrderingIs(re, key, "$eq", y, env, iden);
    OrderingIs(re, key, "$ne", y, env, iden);
    OrderingIs(re, key, "$gt", y, env, iden);
    OrderingIs(re, key, "$gte", y, env, iden);
    OrderingIs(re, key, "$lt", y, env, iden);
    OrderingIs(re, key, "$lte", y, env, iden);
    OrderingsAre(Cmp(GetEnvValue(env, key), y));
  }

  lemma AreOrderings()
    ensures IsOrdering("$eq") && IsOrdering("$ne") && IsOrdering("$gt")
    ensures IsOrdering("$gte") && IsOrdering("$lt") && IsOrdering("$lte")
  {
    var ops := ["$eq", "$ne", "$gt", "$gte", "$lt", "$lte"];
    assert "$eq" == ops[0] && "$ne" == ops[1] && "$gt" == ops[2] && "$gte" == ops[3] && "$lt" == ops[4] && "$lte" == ops[5];
  }

  lemma OrderingIs(re: Regex, key: string, op: string, y: Value, env: Env, iden: string)
    requires IsName(key) && Comparable(y, GetEnvValue(env, key)) && IsOrdering(op)
    ensures Ask(re, key, op, y, env, iden) == Outcome(ByOrdering(op, Cmp(GetEnvValue(env, key), y)), key)
  {
    AskIs(re, key, op, y, env, iden);
  }

  lemma OrderingsAre(c: int)
    requires IsOrdering("$eq") && IsOrdering("$ne") && IsOrdering("$gt")
    requires IsOrdering("$gte") && IsOrdering("$lt") && IsOrdering("$lte")
    ensures ByOrdering("$eq", c) == (if c == 0 then OK else NotMatch) && ByOrdering("$ne", c) == if c != 0 then OK else NotMatch
    ensures ByOrdering("$gt", c) == (if c > 0 then OK else NotMatch) && ByOrdering("$gte", c) == if c >= 0 then OK else NotMatch
    ensures ByOrdering("$lt", c) == (if c < 0 then OK else NotMatch) && ByOrdering("$lte", c) == if c <= 0 then OK else NotMatch
  {
    assert "$eq"[1] == 'e' && "$ne"[1] == 'n' && "$gt"[1] == 'g' && "$lt"[1] == 'l';
  }

  // The order of dictionaries: s is a proper beginning of t, or has the smaller character
  // where they first differ.
  ghost predicate Before(s: string, t: string) {
    exists i :: 0 <= i <= |s| && DiffersAt(s, t, i)
  }

  predicate DiffersAt(s: string, t: string, i: int)
    requires 0 <= i <= |s|
  {
    i < |t| && s[..i] == t[..i] && (i == |s| || s[i] < t[i])
  }

  lemma {:induction false} CompareIs(s: string, t: string)
    ensures CompareStrings(s, t) < 0 <==> Before(s, t)
    ensures CompareStrings(s, t) == 0 <==> s == t
    ensures CompareStrings(s, t) > 0 <==> Before(t, s)
  {
    if s == "" {
      assert t != "" ==> DiffersAt(s, t, 0);
    } else if t == "" {
      assert DiffersAt(t, s, 0);
    } else if s[0] < t[0] {
      assert DiffersAt(s, t, 0);
    } else if t[0] < s[0] {
      assert DiffersAt(t, s, 0);
    } else {
      CompareIs(s[1..], t[1..]);
      BeforeTail(s, t);
      BeforeTail(t, s);
      assert s == [s[0]] + s[1..] && t == [t[0]] + t[1..];
    }
  }

  lemma BeforeTail(s: string, t: string)
    requires s != "" && t != "" && s[0] == t[0]
    ensures Before(s, t) <==> Before(s[1..], t[1..])
  {
    if Before(s, t) {
      var i :| 0 <= i <= |s| && DiffersAt(s, t, i);
      assert i > 0;
      assert s[1..][..i - 1] == s[..i][1..] && t[1..][..i - 1] == t[..i][1..];
      assert DiffersAt(s[1..], t[1..], i - 1);
    }
    if Before(s[1..], t[1..]) {
      var i :| 0 <= i <= |s[1..]| && DiffersAt(s[1..], t[1..], i);
      assert s[..i + 1] == [s[0]] + s[1..][..i] && t[..i + 1] == [t[0]] + t[1..][..i];
      assert DiffersAt(s, t, i + 1);
    }
  }

  // Texts are compared in the order of dictionaries.
  lemma TextsCompare(re: Regex, key: string, t: string, env: Env, iden: string, s: string)
    requires IsName(key) && GetEnvValue(env, key) == Str(s)
    ensures Ask(re, key, "$eq", Str(t), env, iden) == Outcome(if s == t then OK else NotMatch, key)
    ensures Ask(re, key, "$ne", Str(t), env, iden) == Outcome(if s != t then OK else NotMatch, key)
    ensures Ask(re, key, "$gt", Str(t), env, iden) == Outcome(if Before(t, s) then OK else NotMatch, key)
    ensures Ask(re, key, "$gte", Str(t), env, iden) == Outcome(if Before(t, s) || s == t then OK else NotMatch, key)
    ensures Ask(re, key, "$lt", Str(t), env, iden) == Outcome(if Before(s, t) then OK else NotMatch, key)
    ensures Ask(re, key, "$lte", Str(t), env, iden) == Outcome(if Before(s, t) || s == t then OK else NotMatch, key)
  {
    CompareIs(s, t);
    Orderings(re, key, Str(t), env, iden);
  }

  // A bare value means equality.
  lemma BareIsEq(re: Regex, key: string, y: Value, env: Env, iden: string)
    requires IsName(key) && !y.Dict?
    ensures EvalExpr(re, Op(key, y), env, iden) == Ask(re, key, "$eq", y, env, iden)
  {
    NamesAreNotOperators(key);
    OnlyKeyOf(key, y);
    AskIs(re, key, "$eq", y, env, iden);
    var names := ["$not", "$exists", "$or", "$and", "$nor", "$true", "$false"];
    assert key != names[0] && key != names[1] && key != names[2] && key != names[3];
    assert key != names[4] && key != names[5] && key != names[6];
  }

  // What cannot be compared: a missing field, a map as operand, values of different kinds, and
  // operators that do not exist.
  lemma Incomparable(re: Regex, key: string, op: string, y: Value, env: Env, iden: string)
    requires IsName(key) && op !in ["$in", "$nin", "$regex"]
    ensures var x, r := GetEnvValue(env, key), Ask(re, key, op, y, env, iden);
            && r.iden == key
            && (x.Null? ==> r.code == InvalidEnvItem)
            && (!x.Null? && y.Dict? ==> r.code == InvalidExpr)
            && (!x.Null? && !y.Dict? && !((x.Num? || x.Bool?) && (y.Num? || y.Bool?)) && !(x.Str? && y.Str?) ==> r.code == TypeMismatch)
            && (!x.Null? && !y.Dict? && op !in ["$eq", "$ne", "$gt", "$gte", "$lt", "$lte"] ==> r.code == TypeMismatch)
  {
    AskIs(re, key, op, y, env, iden);
    var others := ["$in", "$nin", "$regex"];
    assert op != others[0] && op != others[1] && op != others[2];
  }

  // ---- membership and patterns

  lemma {:induction false} ScalarIn(elem: Value, items: seq<Value>)
    requires !elem.Dict? && !elem.List?
    ensures InItems(elem, items) == if elem in items then OK else NotMatch
  {
    if items != [] {
      ScalarIn(elem, items[1..]);
      assert items == [items[0]] + items[1..];
    }
  }

  // Comparing two maps or two lists panics; a map or list is never found.
  lemma {:induction false} ContainerIn(elem: Value, items: seq<Value>)
    requires elem.Dict? || elem.List?
    ensures InItems(elem, items) ==
            if exists i :: 0 <= i < |items| && ((elem.Dict? && items[i].Dict?) || (elem.List? && items[i].List?)) then Panics else NotMatch
  {
    if items != [] {
      ContainerIn(elem, items[1..]);
      assert forall i :: 0 < i < |items| ==> items[i] == items[1..][i - 1];
    }
  }

  // $in is membership and $nin its opposite, for a field that is neither a map nor a list.
  lemma InIs(re: Regex, key: string, items: seq<Value>, env: Env, iden: string)
    requires IsName(key)
    ensures var x := GetEnvValue(env, key);
            !x.Null? && !x.Dict? && !x.List? ==>
              Ask(re, key, "$in", List(items), env, iden) == Outcome(if x in items then OK else NotMatch, key) &&
              Ask(re, key, "$nin", List(items), env, iden) == Outcome(if x in items then NotMatch else OK, key)
  {
    var x := GetEnvValue(env, key);
    AskIs(re, key, "$in", List(items), env, iden);
    AskIs(re, key, "$nin", List(items), env, iden);
    NotOrderings();
    if !x.Dict? && !x.List? {
      ScalarIn(x, items);
    }
  }

  lemma NotOrderings()
    ensures !IsOrdering("$in") && !IsOrdering("$nin") && !IsOrdering("$regex")
  {
    var ops := ["$eq", "$ne", "$gt", "$gte", "$lt", "$lte"];
    assert forall i :: 0 <= i < |ops| ==> ops[i][1] in ['e', 'n', 'g', 'l'];
    assert "$in"[1] == 'i' && "$regex"[1] == 'r' && "$nin"[2] == 'i';
  }

  // An operand of $in that is not a list is an error, and so is a missing field.
  lemma InErrors(re: Regex, key: string, y: Value, env: Env, iden: string)
    requires IsName(key) && (GetEnvValue(env, key).Null? || !y.List?)
    ensures var code := if GetEnvValue(env, key).Null? then InvalidEnvItem else InvalidExpr;
            Ask(re, key, "$in", y, env, iden) == Outcome(code, key) && Ask(re, key, "$nin", y, env, iden) == Outcome(code, key)
  {
    AskIs(re, key, "$in", y, env, iden);
    AskIs(re, key, "$nin", y, env, iden);
    NotOrderings();
  }

  // A pattern is matched against a text.
  lemma RegexIs(re: Regex, key: string, y: Value, env: Env, iden: string)
    requires IsName(key)
    ensures var x, r := GetEnvValue(env, key), Ask(re, key, "$regex", y, env, iden);
            && r.iden == key
            && (x.Null? ==> r.code == InvalidEnvItem)
            && (!x.Null? && (!y.Str? || y.s == "") ==> r.code == InvalidExpr)
            && (!x.Null? && y.Str? && y.s != "" && !x.Str? ==> r.code == InvalidEnvItem)
            && (y.Str? && y.s != "" && x.Str? && re(y.s, x.s) == None ==> r.code == InvalidExpr)
            && (y.Str? && y.s != "" && x.Str? && re(y.s, x.s) == Some(true) ==> r.code == OK)
            && (y.Str? && y.s != "" && x.Str? && re(y.s, x.s) == Some(false) ==> r.code == NotMatch)
  {
    AskIs(re, key, "$regex", y, env, iden);
    NotOrderings();
  }

  // ---- the other operators

  lemma ConstantsAre(re: Regex, v: Value, env: Env, iden: string)
    ensures EvalExpr(re, Op("$true", v), env, iden) == Outcome(OK, iden)
    ensures EvalExpr(re, Op("$false", v), env, iden) == Outcome(NotMatch, iden)
  {
    OnlyKeyOf("$true", v);
    OnlyKeyOf("$false", v);
  }

  lemma ExistsIs(re: Regex, v: Value, env: Env, iden: string)
    ensures var r := EvalExpr(re, Op("$exists", v), env, iden);
            && r.iden == iden
            && (!v.Str? ==> r.code == InvalidExpr)
            && (v.Str? && GetEnvValue(env, v.s) != Null ==> r.code == OK)
            && (v.Str? && GetEnvValue(env, v.s) == Null ==> r.code == NotMatch)
  {
    OnlyKeyOf("$exists", v);
  }

  // $not exchanges a match and its absence, and passes errors on.
  lemma NotIs(re: Regex, e: Value, env: Env, iden: string)
    requires e.Dict?
    ensures var was, now := EvalExpr(re, e, env, iden), EvalExpr(re, Op("$not", e), env, iden);
            && now.iden == was.iden
            && (was.code == OK ==> now.code == NotMatch) && (was.code == NotMatch ==> now.code == OK)
            && (was.code != OK && was.code != NotMatch ==> now.code == was.code)
  {
    EvalNot(re, e, env, iden);
  }

  // An operator that does not exist is an error, reported with its name.
  lemma UnknownOperator(re: Regex, key: string, v: Value, env: Env, iden: string)
    requires key != "" && key[0] == '$' && key !in ["$not", "$exists", "$or", "$and", "$nor", "$true", "$false"]
    ensures EvalExpr(re, Op(key, v), env, iden) == Outcome(InvalidOp, key)
  {
    OnlyKeyOf(key, v);
    var ops := ["$not", "$exists", "$or", "$and", "$nor", "$true", "$false"];
    assert key != ops[0] && key != ops[1] && key != ops[2] && key != ops[3] && key != ops[4] && key != ops[5] && key != ops[6];
  }

  // An expression has one key, and so has the map of an operator.
  lemma OneKeyEach(re: Regex, m: map<string, Value>, key: string, env: Env, iden: string)
    requires |m| != 1 && IsName(key)
    ensures EvalExpr(re, Dict(m), env, iden) == Outcome(InvalidExpr, iden)
    ensures EvalExpr(re, Op(key, Dict(m)), env, iden) == Outcome(InvalidExpr, key)
  {
    NamesAreNotOperators(key);
    OnlyKeyOf(key, Dict(m));
    var names := ["$not", "$exists", "$or", "$and", "$nor", "$true", "$false"];
    assert key != names[0] && key != names[1] && key != names[2] && key != names[3];
    assert key != names[4] && key != names[5] && key != names[6];
  }

  // ---- lists of expressions

  // What an item answers by itself.
  function CodeOf(re: Regex, item: Value, env: Env): Code {
    if item.Dict? then EvalExpr(re, item, env, "").code else InvalidExpr
  }

  // The identifier reported so far does not matter for the answer.
  lemma {:induction false} CodeIgnoresName(re: Regex, e: Value, env: Env, a: string, b: string)
    requires e.Dict?
    ensures EvalExpr(re, e, env, a).code == EvalExpr(re, e, env, b).code
    decreases e, 1
  {
    if |e.m| == 1 {
      var k := OnlyKey(e.m);
      var v := e.m[k];
      if k == "$not" && v.Dict? {
        CodeIgnoresName(re, v, env, a, b);
      } else if IsListOp(k) && v.List? {
        CodesIgnoreName(re, v.items, env, k, a, b);
      }
    }
  }

  lemma {:induction false} CodesIgnoreName(re: Regex, items: seq<Value>, env: Env, op: string, a: string, b: string)
    ensures EvalItems(re, items, env, op, a).code == EvalItems(re, items, env, op, b).code
    decreases items, 0
  {
    if items != [] && items[0].Dict? {
      CodeIgnoresName(re, items[0], env, a, b);
      CodesIgnoreName(re, items[1..], env, op, EvalExpr(re, items[0], env, a).iden, EvalExpr(re, items[0], env, b).iden);
    }
  }

  // The items before i all answer this.
  ghost predicate AllBefore(re: Regex, items: seq<Value>, env: Env, i: nat, code: Code)
    requires i <= |items|
  {
    forall j :: 0 <= j < i ==> CodeOf(re, items[j], env) == code
  }

  // $or goes on as long as items do not match: then it does not match; otherwise the first
  // other answer, a match or an error, is its own.
  lemma {:induction false} OrIs(re: Regex, items: seq<Value>, env: Env, iden: string)
    ensures var c := EvalExpr(re, Op("$or", List(items)), env, iden).code;
            && (AllBefore(re, items, env, |items|, NotMatch) ==> c == NotMatch)
            && forall i :: 0 <= i < |items| && AllBefore(re, items, env, i, NotMatch) && CodeOf(re, items[i], env) != NotMatch ==>
                 c == CodeOf(re, items[i], env)
  {
    EvalListOp(re, "$or", List(items), env, iden);
    OrItems(re, items, env, iden);
  }

  lemma {:induction false} OrItems(re: Regex, items: seq<Value>, env: Env, iden: string)
    ensures var c := EvalItems(re, items, env, "$or", iden).code;
            && (AllBefore(re, items, env, |items|, NotMatch) ==> c == NotMatch)
            && forall i :: 0 <= i < |items| && AllBefore(re, items, env, i, NotMatch) && CodeOf(re, items[i], env) != NotMatch ==>
                 c == CodeOf(re, items[i], env)
  {
    if items != [] {
      assert forall j :: 0 < j < |items| ==> items[j] == items[1..][j - 1];
      assert forall j :: 0 <= j < |items| - 1 ==> items[1..][j] == items[j + 1];
      if items[0].Dict? {
        CodeIgnoresName(re, items[0], env, iden, "");
        OrItems(re, items[1..], env, EvalExpr(re, items[0], env, iden).iden);
      }
    }
  }

  // $and goes on as long as items match: then it matches; otherwise the first other answer is
  // its own.
  lemma AndIs(re: Regex, items: seq<Value>, env: Env, iden: string)
    ensures var c := EvalExpr(re, Op("$and", List(items)), env, iden).code;
            && (AllBefore(re, items, env, |items|, OK) ==> c == OK)
            && forall i :: 0 <= i < |items| && AllBefore(re, items, env, i, OK) && CodeOf(re, items[i], env) != OK ==>
                 c == CodeOf(re, items[i], env)
  {
    EvalListOp(re, "$and", List(items), env, iden);
    AndItems(re, items, env, iden);
  }

  lemma {:induction false} AndItems(re: Regex, items: seq<Value>, env: Env, iden: string)
    ensures var c := EvalItems(re, items, env, "$and", iden).code;
            && (AllBefore(re, items, env, |items|, OK) ==> c == OK)
            && forall i :: 0 <= i < |items| && AllBefore(re, items, env, i, OK) && CodeOf(re, items[i], env) != OK ==>
                 c == CodeOf(re, items[i], env)
  {
    if items != [] {
      assert forall j :: 0 < j < |items| ==> items[j] == items[1..][j - 1];
      assert forall j :: 0 <= j < |items| - 1 ==> items[1..][j] == items[j + 1];
      if items[0].Dict? {
        CodeIgnoresName(re, items[0], env, iden, "");
        AndItems(re, items[1..], env, EvalExpr(re, items[0], env, iden).iden);
      }
    }
  }

  // $nor goes on as long as items do not match: then it matches; the first match makes it fail
  // to match, and the first error is its own.
  lemma NorIs(re: Regex, items: seq<Value>, env: Env, iden: string)
    ensures var c := EvalExpr(re, Op("$nor", List(items)), env, iden).code;
            && (AllBefore(re, items, env, |items|, NotMatch) ==> c == OK)
            && forall i :: 0 <= i < |items| && AllBefore(re, items, env, i, NotMatch) && CodeOf(re, items[i], env) != NotMatch ==>
                 c == if CodeOf(re, items[i], env) == OK then NotMatch else CodeOf(re, items[i], env)
  {
    NorIsNotOr(re, List(items), env, iden);
    NotIs(re, Op("$or", List(items)), env, iden);
    OrIs(re, items, env, iden);
  }
}
