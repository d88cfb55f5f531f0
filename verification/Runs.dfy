// Putting runs of the protocol together and taking them apart.
module Runs {
  import opened Prelude
  import opened Protocol

  lemma ExecMore(cfg: Config, s: State, steps: seq<Step>, b: Step)
    requires Exec(cfg, s, steps).Some? && Enabled(cfg, Exec(cfg, s, steps).value, b)
    ensures Exec(cfg, s, steps + [b]) == Some(Apply(cfg, Exec(cfg, s, steps).value, b))
  {
    assert (steps + [b])[..|steps|] == steps;
  }

  lemma {:induction false} ExecAppend(cfg: Config, s: State, a: seq<Step>, b: seq<Step>)
    requires Exec(cfg, s, a).Some?
    ensures Exec(cfg, s, a + b) == Exec(cfg, Exec(cfg, s, a).value, b)
  {
    if b == [] {
      assert a + b == a;
    } else {
      var c := b[..|b| - 1];
      assert (a + b)[..|a + b| - 1] == a + c;
      ExecAppend(cfg, s, a, c);
    }
  }

  lemma {:induction false} ExecPrefix(cfg: Config, s: State, a: seq<Step>, b: seq<Step>)
    requires Exec(cfg, s, a + b).Some?
    ensures Exec(cfg, s, a).Some?
  {
    if b == [] {
      assert a + b == a;
    } else {
      assert (a + b)[..|a + b| - 1] == a + b[..|b| - 1];
      ExecPrefix(cfg, s, a, b[..|b| - 1]);
    }
  }

  // ---- runs as traces of states, for putting long runs together

  ghost predicate StepOK(cfg: Config, trace: seq<State>, steps: seq<Step>, i: nat)
    requires i < |steps| && |trace| == |steps| + 1
  {
    Enabled(cfg, trace[i], steps[i]) && trace[i + 1] == Apply(cfg, trace[i], steps[i])
  }

  ghost predicate IsTrace(cfg: Config, s: State, steps: seq<Step>, r: State, trace: seq<State>) {
    |trace| == |steps| + 1 && trace[0] == s && trace[|steps|] == r && forall i :: 0 <= i < |steps| ==> StepOK(cfg, trace, steps, i)
  }

  // The steps take s to r.
  ghost predicate Leads(cfg: Config, s: State, steps: seq<Step>, r: State) {
    exists trace :: IsTrace(cfg, s, steps, r, trace)
  }

  lemma LeadsNowhere(cfg: Config, s: State)
    ensures Leads(cfg, s, [], s)
  {
    assert IsTrace(cfg, s, [], s, [s]);
  }

  lemma LeadsOne(cfg: Config, s: State, step: Step)
    requires Enabled(cfg, s, step)
    ensures Leads(cfg, s, [step], Apply(cfg, s, step))
  {
    var trace := [s, Apply(cfg, s, step)];
    assert StepOK(cfg, trace, [step], 0);
    assert IsTrace(cfg, s, [step], Apply(cfg, s, step), trace);
  }

  lemma LeadsJoin(cfg: Config, s: State, a: seq<Step>, m: State, b: seq<Step>, r: State)
    requires Leads(cfg, s, a, m) && Leads(cfg, m, b, r)
    ensures Leads(cfg, s, a + b, r)
  {
    var x :| IsTrace(cfg, s, a, m, x);
    var y :| IsTrace(cfg, m, b, r, y);
    JoinTraces(cfg, s, a, m, b, r, x, y);
  }

  lemma JoinTraces(cfg: Config, s: State, a: seq<Step>, m: State, b: seq<Step>, r: State, x: seq<State>, y: seq<State>)
    requires IsTrace(cfg, s, a, m, x) && IsTrace(cfg, m, b, r, y)
    ensures IsTrace(cfg, s, a + b, r, x + y[1..])
  {
    var trace := x + y[1..];
    forall i | 0 <= i < |a + b| ensures StepOK(cfg, trace, a + b, i) {
      if i < |a| {
        assert StepOK(cfg, x, a, i);
      } else {
        assert StepOK(cfg, y, b, i - |a|);
      }
    }
  }

  lemma {:induction false} LeadsExec(cfg: Config, s: State, steps: seq<Step>, r: State)
    ensures Leads(cfg, s, steps, r) <==> Exec(cfg, s, steps) == Some(r)
    decreases |steps|
  {
    if steps == [] {
      LeadsNowhere(cfg, s);
    } else {
      var prior, step := steps[..|steps| - 1], steps[|steps| - 1];
      assert steps == prior + [step];
      if Leads(cfg, s, steps, r) {
        var trace :| IsTrace(cfg, s, steps, r, trace);
        LeadsPrior(cfg, s, steps, r, trace);
        LeadsExec(cfg, s, prior, trace[|prior|]);
      }
      if Exec(cfg, s, steps) == Some(r) {
        var p := Exec(cfg, s, prior).value;
        LeadsExec(cfg, s, prior, p);
        LeadsOne(cfg, p, step);
        LeadsJoin(cfg, s, prior, p, [step], r);
      }
    }
  }

  lemma LeadsPrior(cfg: Config, s: State, steps: seq<Step>, r: State, trace: seq<State>)
    requires steps != [] && IsTrace(cfg, s, steps, r, trace)
    ensures var n := |steps| - 1;
            Leads(cfg, s, steps[..n], trace[n]) && Enabled(cfg, trace[n], steps[n]) && r == Apply(cfg, trace[n], steps[n])
  {
    var n := |steps| - 1;
    var x := trace[..n + 1];
    forall i | 0 <= i < n ensures StepOK(cfg, x, steps[..n], i) {
      assert StepOK(cfg, trace, steps, i);
    }
    assert IsTrace(cfg, s, steps[..n], trace[n], x);
    assert StepOK(cfg, trace, steps, n);
  }
}
