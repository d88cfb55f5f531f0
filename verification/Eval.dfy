// The expression language: what an expression evaluates to, and which identifier it
// reports, as functions.
module Eval {
  import opened Prelude
  import opened Text

  // A value of an expression or an environment.  Two numbers of different Go types are
  // different values to $in, though not to the comparisons.
  datatype Value =
    | Null
    | Bool(b: bool)
    | Num(kind: nat, v: real)
    | Str(s: string)
    | List(items: seq<Value>)
    | Dict(m: map<string, Value>)

  type Env = map<string, Value>

  datatype Code = NotMatch | OK | InvalidExpr | InvalidOp | InvalidEnv | InvalidEnvItem | TypeMismatch | Panics

  // The code and the identifier left in the evaluation context.
  datatype Outcome = Outcome(code: Code, iden: string)

  // regexp.MatchString; None for a pattern that does not compile
  type Regex = (string, string) -> Option<bool>

  predicate IsError(c: Code) {
    c != NotMatch && c != OK
  }

  function Negate(c: Code): Code {
    match c
    case NotMatch => OK
    case OK => NotMatch
    case _ => c
  }

  // ---- environment lookup

  function Lookup(env: Env, name: string): Value {
    if name in env then env[name] else Null
  }

  lemma JoinTailShorter(key: string)
    requires '.' in key
    ensures |Split(key, '.')| >= 2 && |Join(Split(key, '.')[1..], '.')| < |key|
  {
    JoinSplit(key, '.');
    var parts := Split(key, '.');
    assert parts == [key[..IndexOf(key, '.')]] + Split(key[IndexOf(key, '.') + 1..], '.');
  }

  // A dotted key descends one segment at a time.
  function GetEnvValue(env: Env, key: string): Value
    decreases |key|
  {
    if '.' in key then
      var parts := Split(key, '.');
      JoinTailShorter(key);
      var nested := Lookup(env, parts[0]);
      if nested.Dict? then GetEnvValue(nested.m, Join(parts[1..], '.')) else Null
    else Lookup(env, key)
  }

  // The path walked segment by segment.
  function Walk(env: Env, path: seq<string>): Value
    requires path != []
    decreases |path|
  {
    var v := Lookup(env, path[0]);
    if |path| == 1 then v
    else if v.Dict? then Walk(v.m, path[1..])
    else Null
  }

  // Looking a key up is walking its '.'-separated segments, for every key, empty segments included.
  lemma {:induction false} GetEnvValueWalks(env: Env, key: string)
    ensures GetEnvValue(env, key) == Walk(env, Split(key, '.'))
    decreases |key|
  {
    var parts := Split(key, '.');
    if '.' in key {
      JoinTailShorter(key);
      SplitJoin(parts[1..], '.');
      var nested := Lookup(env, parts[0]);
      if nested.Dict? {
        GetEnvValueWalks(nested.m, Join(parts[1..], '.'));
      }
    } else {
      IndexOfIs(key, '.', |key|);
    }
  }

  // ---- comparison

  predicate Castable(v: Value) {
    v.Bool? || v.Num?
  }

  function AsReal(v: Value): real
    requires Castable(v)
  {
    match v
    case Bool(b) => if b then 1.0 else 0.0
    case Num(_, r) => r
  }

  function Sign(a: real, b: real): int {
    if a == b then 0 else if a > b then 1 else -1
  }

  // strings.Compare
  function CompareStrings(a: string, b: string): int {
    if a == "" then if b == "" then 0 else -1
    else if b == "" then 1
    else if a[0] < b[0] then -1
    else if b[0] < a[0] then 1
    else CompareStrings(a[1..], b[1..])
  }

  predicate Comparable(x: Value, y: Value) {
    (Castable(x) && Castable(y)) || (x.Str? && y.Str?)
  }

  function Cmp(valEnv: Value, valExpr: Value): int
    requires Comparable(valExpr, valEnv)
  {
    if Castable(valExpr) then Sign(AsReal(valEnv), AsReal(valExpr)) else CompareStrings(valEnv.s, valExpr.s)
  }

  function When(holds: bool): Code {
    if holds then OK else NotMatch
  }

  predicate IsOrdering(op: string) {
    op in ["$eq", "$ne", "$gt", "$gte", "$lt", "$lte"]
  }

  function ByOrdering(op: string, c: int): Code
    requires IsOrdering(op)
  {
    if op == "$eq" then When(c == 0)
    else if op == "$ne" then When(c != 0)
    else if op == "$gt" then When(c > 0)
    else if op == "$gte" then When(c >= 0)
    else if op == "$lt" then When(c < 0)
    else When(c <= 0)
  }

  // Go's == on two interface values; it panics on two maps or two slices.
  function InterfaceEqual(a: Value, b: Value): Option<bool> {
    if (a.Dict? && b.Dict?) || (a.List? && b.List?) then None else Some(a == b)
  }

  function InItems(elem: Value, items: seq<Value>): Code {
    if items == [] then NotMatch
    else
      var same := InterfaceEqual(items[0], elem);
      if same.None? then Panics
      else if same.value then OK
      else InItems(elem, items[1..])
  }

  function In(elem: Value, slice: Value): Code {
    if !slice.List? then InvalidExpr
    else if elem.Null? then InvalidEnvItem
    else InItems(elem, slice.items)
  }

  function EvalCmp(re: Regex, valExpr: Value, valEnv: Value, op: string): Code {
    if valExpr.Dict? then InvalidExpr
    else if Comparable(valExpr, valEnv) && IsOrdering(op) then ByOrdering(op, Cmp(valEnv, valExpr))
    else if op == "$in" then In(valEnv, valExpr)
    else if op == "$nin" then Negate(In(valEnv, valExpr))
    else if op == "$regex" then
      if !valExpr.Str? || valExpr.s == "" then InvalidExpr
      else if !valEnv.Str? then InvalidEnvItem
      else
        var matched := re(valExpr.s, valEnv.s);
        if matched.None? then InvalidExpr else When(matched.value)
    else if valEnv.Null? then InvalidEnvItem
    else TypeMismatch
  }

  // The key of a map with one entry.
  function OnlyKey(m: map<string, Value>): (k: string)
    requires |m| == 1
    ensures k in m && m == map[k := m[k]]
  {
    OneEntry(m);
    var k :| k in m && forall j | j in m :: j == k;
    assert m == map[k := m[k]];
    k
  }

  lemma OneEntry(m: map<string, Value>)
    requires |m| == 1
    ensures exists k :: k in m && forall j :: j in m ==> j == k
  {
    var k :| k in m;
    assert |m.Keys - {k}| == 0;
    forall j | j in m ensures j == k {
      assert j in m.Keys - {k} || j == k;
    }
  }

  lemma OnlyKeyOf(k: string, v: Value)
    ensures |map[k := v]| == 1 && OnlyKey(map[k := v]) == k
  {
    var m := map[k := v];
    assert m.Keys == {k};
    assert OnlyKey(m) in m;
  }

  function EvalOp(re: Regex, valExpr: map<string, Value>, valEnv: Value): Code {
    if |valExpr| != 1 then InvalidExpr
    else if valEnv.Null? then InvalidEnvItem
    else
      var k := OnlyKey(valExpr);
      EvalCmp(re, valExpr[k], valEnv, k)
  }

  function EvalSimple(re: Regex, valExpr: Value, valEnv: Value): Code {
    if valExpr.Dict? then EvalOp(re, valExpr.m, valEnv) else EvalCmp(re, valExpr, valEnv, "$eq")
  }

  // ---- evaluation

  predicate IsListOp(op: string) {
    op == "$or" || op == "$and" || op == "$nor"
  }

  // What the loop over the items answers when an item has this code; None to go on.
  function Stop(op: string, c: Code): Option<Code> {
    if IsError(c) then Some(c)
    else if c == OK then if op == "$or" then Some(OK) else if op == "$nor" then Some(NotMatch) else None
    else if op == "$and" then Some(NotMatch) else None
  }

  function AtEnd(op: string): Code {
    if op == "$or" then NotMatch else OK
  }

  function EvalExpr(re: Regex, e: Value, env: Env, iden: string): Outcome
    requires e.Dict?
    decreases e, 1
  {
    if |e.m| != 1 then Outcome(InvalidExpr, iden)
    else
      var k := OnlyKey(e.m);
      var v := e.m[k];
      if k == "$not" then
        if !v.Dict? then Outcome(InvalidExpr, iden)
        else
          var r := EvalExpr(re, v, env, iden);
          r.(code := Negate(r.code))
      else if k == "$exists" then
        Outcome(if !v.Str? then InvalidExpr else When(!GetEnvValue(env, v.s).Null?), iden)
      else if IsListOp(k) then
        if !v.List? then Outcome(InvalidExpr, iden) else EvalItems(re, v.items, env, k, iden)
      else if k == "$true" then Outcome(OK, iden)
      else if k == "$false" then Outcome(NotMatch, iden)
      else if k != "" && k[0] == '$' then Outcome(InvalidOp, k)
      else Outcome(EvalSimple(re, v, GetEnvValue(env, k)), k)
  }

  function EvalItems(re: Regex, items: seq<Value>, env: Env, op: string, iden: string): Outcome
    decreases items, 0
  {
    if items == [] then Outcome(AtEnd(op), iden)
    else if !items[0].Dict? then Outcome(InvalidExpr, iden)
    else
      var r := EvalExpr(re, items[0], env, iden);
      var stop := Stop(op, r.code);
      if stop.Some? then r.(code := stop.value) else EvalItems(re, items[1..], env, op, r.iden)
  }

  // ---- laws

  function Op(k: string, v: Value): Value {
    Dict(map[k := v])
  }

  lemma EvalNot(re: Regex, v: Value, env: Env, iden: string)
    ensures EvalExpr(re, Op("$not", v), env, iden) ==
            if !v.Dict? then Outcome(InvalidExpr, iden)
            else var r := EvalExpr(re, v, env, iden); r.(code := Negate(r.code))
  {
    OnlyKeyOf("$not", v);
  }

  lemma EvalListOp(re: Regex, op: string, v: Value, env: Env, iden: string)
    requires IsListOp(op)
    ensures EvalExpr(re, Op(op, v), env, iden) ==
            if !v.List? then Outcome(InvalidExpr, iden) else EvalItems(re, v.items, env, op, iden)
  {
    OnlyKeyOf(op, v);
  }

  // $not of $not E is E, code and identifier.
  lemma DoubleNegation(re: Regex, e: Value, env: Env, iden: string)
    requires e.Dict?
    ensures EvalExpr(re, Op("$not", Op("$not", e)), env, iden) == EvalExpr(re, e, env, iden)
  {
    EvalNot(re, Op("$not", e), env, iden);
    EvalNot(re, e, env, iden);
  }

  lemma {:induction false} NorItems(re: Regex, items: seq<Value>, env: Env, iden: string)
    ensures var r := EvalItems(re, items, env, "$or", iden);
            EvalItems(re, items, env, "$nor", iden) == r.(code := Negate(r.code))
  {
    if items != [] && items[0].Dict? {
      NorItems(re, items[1..], env, EvalExpr(re, items[0], env, iden).iden);
    }
  }

  // $nor L is $not of $or L, whatever L is.
  lemma NorIsNotOr(re: Regex, v: Value, env: Env, iden: string)
    ensures EvalExpr(re, Op("$nor", v), env, iden) == EvalExpr(re, Op("$not", Op("$or", v)), env, iden)
  {
    EvalListOp(re, "$nor", v, env, iden);
    EvalNot(re, Op("$or", v), env, iden);
    EvalListOp(re, "$or", v, env, iden);
    if v.List? {
      NorItems(re, v.items, env, iden);
    }
  }

  function Negated(items: seq<Value>): (r: seq<Value>)
    ensures |r| == |items| && forall i :: 0 <= i < |r| ==> r[i] == Op("$not", items[i])
  {
    if items == [] then [] else [Op("$not", items[0])] + Negated(items[1..])
  }

  lemma {:induction false} OrOfNegated(re: Regex, items: seq<Value>, env: Env, iden: string)
    ensures var r := EvalItems(re, Negated(items), env, "$or", iden);
            EvalItems(re, items, env, "$and", iden) == r.(code := Negate(r.code))
  {
    if items != [] {
      EvalNot(re, items[0], env, iden);
      assert Negated(items)[1..] == Negated(items[1..]);
      if items[0].Dict? {
        OrOfNegated(re, items[1..], env, EvalExpr(re, items[0], env, iden).iden);
      }
    }
  }

  // $and over items is $not of $or over the negated items, errors and early exits included.
  lemma AndIsNotOrNots(re: Regex, items: seq<Value>, env: Env, iden: string)
    ensures EvalExpr(re, Op("$and", List(items)), env, iden) ==
            EvalExpr(re, Op("$not", Op("$or", List(Negated(items)))), env, iden)
  {
    EvalListOp(re, "$and", List(items), env, iden);
    EvalNot(re, Op("$or", List(Negated(items))), env, iden);
    EvalListOp(re, "$or", List(Negated(items)), env, iden);
    OrOfNegated(re, items, env, iden);
  }

  // The loop over two lists in a row: the second runs only if the first went to its end.
  lemma {:induction false} EvalAppend(re: Regex, a: seq<Value>, b: seq<Value>, env: Env, op: string, iden: string)
    requires IsListOp(op)
    ensures var r := EvalItems(re, a, env, op, iden);
            EvalItems(re, a + b, env, op, iden) ==
            if r.code == AtEnd(op) then EvalItems(re, b, env, op, r.iden) else r
  {
    if a == [] {
      assert a + b == b;
    } else {
      assert (a + b)[0] == a[0] && (a + b)[1..] == a[1..] + b;
      if a[0].Dict? {
        EvalAppend(re, a[1..], b, env, op, EvalExpr(re, a[0], env, iden).iden);
      }
    }
  }

  lemma EvalOne(re: Regex, e: Value, env: Env, op: string, iden: string)
    requires e.Dict?
    ensures var r := EvalExpr(re, e, env, iden);
            EvalItems(re, [e], env, op, iden) == if Stop(op, r.code).Some? then r.(code := Stop(op, r.code).value)
                                                 else Outcome(AtEnd(op), r.iden)
  {
    assert [e][1..] == [];
  }

  // A nested $and inside $and, or $or inside $or, may be spliced into the outer list.
  lemma Flatten(re: Regex, op: string, a: seq<Value>, b: seq<Value>, c: seq<Value>, env: Env, iden: string)
    requires op == "$and" || op == "$or"
    ensures EvalExpr(re, Op(op, List(a + [Op(op, List(b))] + c)), env, iden) ==
            EvalExpr(re, Op(op, List(a + b + c)), env, iden)
  {
    var inner := Op(op, List(b));
    EvalListOp(re, op, List(a + [inner] + c), env, iden);
    EvalListOp(re, op, List(a + b + c), env, iden);
    var i := EvalItems(re, a, env, op, iden).iden;
    EvalAppend(re, a + [inner], c, env, op, iden);
    EvalAppend(re, a, [inner], env, op, iden);
    EvalAppend(re, a + b, c, env, op, iden);
    EvalAppend(re, a, b, env, op, iden);
    EvalOne(re, inner, env, op, i);
    EvalListOp(re, op, List(b), env, i);
    ItemsCodes(re, b, env, op, i);
  }

  // An $and answers NotMatch or OK, and an $or likewise, unless it answers an error.
  lemma {:induction false} ItemsCodes(re: Regex, items: seq<Value>, env: Env, op: string, iden: string)
    requires op == "$and" || op == "$or"
    ensures var c := EvalItems(re, items, env, op, iden).code;
            Stop(op, c) == if c == AtEnd(op) then None else Some(c)
  {
    if items != [] && items[0].Dict? {
      ItemsCodes(re, items[1..], env, op, EvalExpr(re, items[0], env, iden).iden);
    }
  }

  // ---- dependence on the environment

  // The identifiers whose values the expression may look at.
  function Idents(e: Value): set<string>
    decreases e
  {
    if !e.Dict? || |e.m| != 1 then {}
    else
      var k := OnlyKey(e.m);
      var v := e.m[k];
      if k == "$not" then Idents(v)
      else if k == "$exists" then if v.Str? then {v.s} else {}
      else if IsListOp(k) then if v.List? then ItemIdents(v.items) else {}
      else if k != "" && k[0] == '$' then {}
      else {k}
  }

  function ItemIdents(items: seq<Value>): set<string>
    decreases items
  {
    if items == [] then {} else Idents(items[0]) + ItemIdents(items[1..])
  }

  ghost predicate Agree(env1: Env, env2: Env, names: set<string>) {
    forall n :: n in names ==> GetEnvValue(env1, n) == GetEnvValue(env2, n)
  }

  // Two environments that agree on the identifiers of an expression give it the same code
  // and the same reported identifier.
  lemma {:induction false} SameIdentifiersSameOutcome(re: Regex, e: Value, env1: Env, env2: Env, iden: string)
    requires e.Dict? && Agree(env1, env2, Idents(e))
    ensures EvalExpr(re, e, env1, iden) == EvalExpr(re, e, env2, iden)
    decreases e, 1
  {
    if |e.m| == 1 {
      var k := OnlyKey(e.m);
      var v := e.m[k];
      if k == "$not" && v.Dict? {
        SameIdentifiersSameOutcome(re, v, env1, env2, iden);
      } else if IsListOp(k) && v.List? {
        SameItemsSameOutcome(re, v.items, env1, env2, k, iden);
      }
    }
  }

  lemma {:induction false} SameItemsSameOutcome(re: Regex, items: seq<Value>, env1: Env, env2: Env, op: string, iden: string)
    requires Agree(env1, env2, ItemIdents(items))
    ensures EvalItems(re, items, env1, op, iden) == EvalItems(re, items, env2, op, iden)
    decreases items, 0
  {
    if items != [] && items[0].Dict? {
      SameIdentifiersSameOutcome(re, items[0], env1, env2, iden);
      SameItemsSameOutcome(re, items[1..], env1, env2, op, EvalExpr(re, items[0], env1, iden).iden);
    }
  }

  // ---- the evaluator as it runs

  class EvalCtx {
    var iden: string

    constructor ()
      ensures iden == ""
    {
      iden := "";
    }

    method Run(re: Regex, e: Value, env: Env) returns (res: Code)
      requires e.Dict?
      modifies this
      ensures Outcome(res, iden) == EvalExpr(re, e, env, old(iden))
      decreases e, 1
    {
      if |e.m| != 1 {
        return InvalidExpr;
      }
      var k := OnlyKey(e.m);
      var v := e.m[k];
      if k == "$not" {
        if !v.Dict? {
          return InvalidExpr;
        }
        res := Run(re, v, env);
        return Negate(res);
      } else if k == "$exists" {
        if !v.Str? {
          return InvalidExpr;
        }
        return When(!GetEnvValue(env, v.s).Null?);
      } else if k == "$or" || k == "$and" || k == "$nor" {
        res := RunList(re, v, env, k);
        return;
      } else if k == "$true" {
        return OK;
      } else if k == "$false" {
        return NotMatch;
      }
      iden := k;
      if |k| > 0 && k[0] == '$' {
        return InvalidOp;
      }
      return EvalSimple(re, v, GetEnvValue(env, k));
    }

    method RunList(re: Regex, v: Value, env: Env, op: string) returns (res: Code)
      requires IsListOp(op)
      modifies this
      ensures Outcome(res, iden) ==
              if !v.List? then Outcome(InvalidExpr, old(iden)) else EvalItems(re, v.items, env, op, old(iden))
      decreases v, 0
    {
      if !v.List? {
        return InvalidExpr;
      }
      var k := 0;
      while k < |v.items|
        invariant 0 <= k <= |v.items|
        invariant EvalItems(re, v.items, env, op, old(iden)) == EvalItems(re, v.items[k..], env, op, iden)
      {
        var item := v.items[k];
        assert v.items[k..][0] == item && v.items[k..][1..] == v.items[k + 1..];
        if !item.Dict? {
          return InvalidExpr;
        }
        res := Run(re, item, env);
        if IsError(res) {
          return;
        } else if res == OK {
          if op == "$or" {
            return OK;
          } else if op == "$nor" {
            return NotMatch;
          }
        } else {
          if op == "$and" {
            return NotMatch;
          }
        }
        k := k + 1;
      }
      if op == "$or" {
        return NotMatch;
      } else {
        return OK;
      }
    }
  }

  // The loop of `in`.
  method InLoop(elem: Value, items: seq<Value>) returns (res: Code)
    ensures res == InItems(elem, items)
    ensures res == OK ==> exists i :: 0 <= i < |items| && items[i] == elem
    ensures res == NotMatch ==> elem !in items
  {
    var k := 0;
    while k < |items|
      invariant 0 <= k <= |items|
      invariant InItems(elem, items) == InItems(elem, items[k..])
      invariant elem !in items[..k]
    {
      assert items[k..][1..] == items[k + 1..];
      var same := InterfaceEqual(items[k], elem);
      if same.None? {
        return Panics;
      }
      if same.value {
        return OK;
      }
      k := k + 1;
    }
    return NotMatch;
  }
}
