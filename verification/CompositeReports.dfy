/**
  What a composite step's report may still show. The nested reports are redacted one by one as they
  are made; their concatenation, the composite's own report, is not redacted again.
 */
module CompositeReports {
  import opened Outcomes
  import opened Text
  import opened Steps
  import Commands
  import Redaction

  // ----- occurrences in a concatenation -----

  function Glue(parts: seq<string>): string {
    if parts == [] then "" else parts[0] + Glue(parts[1..])
  }

  /** An occurrence of v begins in a and ends in b. */
  ghost predicate Crosses(a: string, b: string, v: string) {
    exists p: nat :: p < |a| < p + |v| && OccursAt(a + b, v, p)
  }

  /** An occurrence of v crosses the boundary between two parts. */
  ghost predicate Straddles(parts: seq<string>, v: string) {
    exists k :: 0 < k < |parts| && Crosses(Glue(parts[..k]), Glue(parts[k..]), v)
  }

  ghost predicate SomePartContains(parts: seq<string>, v: string) {
    exists k :: 0 <= k < |parts| && Contains(parts[k], v)
  }

  lemma {:induction false} GlueConcat(a: seq<string>, b: seq<string>)
    ensures Glue(a + b) == Glue(a) + Glue(b)
  {
    if a == [] {
      assert a + b == b;
    } else {
      GlueConcat(a[1..], b);
      GlueStep(a, b);
    }
  }

  lemma GlueStep(a: seq<string>, b: seq<string>)
    requires a != []
    ensures Glue(a + b) == a[0] + Glue(a[1..] + b)
  {
    assert (a + b)[1..] == a[1..] + b;
  }

  lemma OccursInside(a: string, b: string, c: string, v: string)
    requires Contains(b, v)
    ensures Contains(a + b + c, v)
  {
    var p: nat :| OccursAt(b, v, p);
    var t := a + b + c;
    assert t[|a| + p..|a| + p + |v|] == b[p..p + |v|];
    assert OccursAt(t, v, |a| + p);
  }

  lemma PartInside(parts: seq<string>, k: nat, v: string)
    requires k < |parts| && Contains(parts[k], v)
    ensures Contains(Glue(parts), v)
  {
    GlueAt(parts, k);
    var before, after := Glue(parts[..k]), Glue(parts[k..][1..]);
    assert Glue(parts) == before + parts[k] + after;
    OccursInside(before, parts[k], after, v);
  }

  lemma GlueAt(parts: seq<string>, k: nat)
    requires k <= |parts|
    ensures Glue(parts[..k]) + Glue(parts[k..]) == Glue(parts)
  {
    GlueConcat(parts[..k], parts[k..]);
    Whole(parts, k);
  }

  lemma Whole(parts: seq<string>, k: nat)
    requires k <= |parts|
    ensures parts[..k] + parts[k..] == parts
  {
  }

  lemma StraddlingInside(parts: seq<string>, v: string)
    requires Straddles(parts, v)
    ensures Contains(Glue(parts), v)
  {
    var k :| 0 < k < |parts| && Crosses(Glue(parts[..k]), Glue(parts[k..]), v);
    GlueAt(parts, k);
    CrossingInside(Glue(parts[..k]), Glue(parts[k..]), v);
  }

  lemma CrossingInside(a: string, b: string, v: string)
    requires Crosses(a, b, v)
    ensures Contains(a + b, v)
  {
    var p: nat :| p < |a| < p + |v| && OccursAt(a + b, v, p);
  }

  lemma CrossesLater(x: string, a: string, b: string, v: string)
    requires Crosses(a, b, v)
    ensures Crosses(x + a, b, v)
  {
    var p: nat :| p < |a| < p + |v| && OccursAt(a + b, v, p);
    var t := (x + a) + b;
    assert t[|x| + p..|x| + p + |v|] == (a + b)[p..p + |v|];
    assert OccursAt(t, v, |x| + p);
  }

  lemma StraddlesLater(parts: seq<string>, v: string)
    requires parts != [] && Straddles(parts[1..], v)
    ensures Straddles(parts, v)
  {
    var tail := parts[1..];
    var k :| 0 < k < |tail| && Crosses(Glue(tail[..k]), Glue(tail[k..]), v);
    CrossesLater(parts[0], Glue(tail[..k]), Glue(tail[k..]), v);
    GlueTake(parts, k);
    assert parts[k + 1..] == tail[k..];
  }

  lemma GlueTake(parts: seq<string>, k: nat)
    requires k < |parts|
    ensures Glue(parts[..k + 1]) == parts[0] + Glue(parts[1..][..k])
  {
    assert parts[..k + 1][1..] == parts[1..][..k];
  }

  lemma StraddlesFirst(parts: seq<string>, v: string)
    requires |parts| > 1 && Crosses(parts[0], Glue(parts[1..]), v)
    ensures Straddles(parts, v)
  {
    assert parts[..1] == [parts[0]] && [parts[0]][1..] == [];
    assert Glue(parts[..1]) == parts[0] + "" == parts[0];
  }

  lemma OccursSplit(a: string, b: string, v: string)
    requires v != "" && Contains(a + b, v)
    ensures Contains(a, v) || Contains(b, v) || Crosses(a, b, v)
  {
    var t := a + b;
    var p: nat :| OccursAt(t, v, p);
    if p + |v| <= |a| {
      assert a[p..p + |v|] == t[p..p + |v|];
      assert OccursAt(a, v, p);
    } else if p >= |a| {
      assert b[p - |a|..p - |a| + |v|] == t[p..p + |v|];
      assert OccursAt(b, v, p - |a|);
    }
  }

  lemma {:induction false} Located(parts: seq<string>, v: string)
    requires v != "" && Contains(Glue(parts), v)
    ensures SomePartContains(parts, v) || Straddles(parts, v)
    decreases |parts|
  {
    if parts != [] {
      var tail := parts[1..];
      OccursSplit(parts[0], Glue(tail), v);
      if Contains(Glue(tail), v) {
        Located(tail, v);
        if SomePartContains(tail, v) {
          var k :| 0 <= k < |tail| && Contains(tail[k], v);
          assert Contains(parts[k + 1], v);
        } else {
          StraddlesLater(parts, v);
        }
      } else if Crosses(parts[0], Glue(tail), v) {
        assert tail != [];
        StraddlesFirst(parts, v);
      }
    }
  }

  /** A concatenation contains v iff a part does or an occurrence straddles two parts. */
  lemma GlueContainsIff(parts: seq<string>, v: string)
    requires v != ""
    ensures Contains(Glue(parts), v) <==> SomePartContains(parts, v) || Straddles(parts, v)
  {
    if Contains(Glue(parts), v) {
      Located(parts, v);
    }
    if SomePartContains(parts, v) {
      var k :| 0 <= k < |parts| && Contains(parts[k], v);
      PartInside(parts, k, v);
    }
    if Straddles(parts, v) {
      StraddlingInside(parts, v);
    }
  }

  // ----- the nested steps of a composite -----

  /** The nested loop, for any way its steps may run. */
  function Loop(run: StepRunner, n: Nested, steps: seq<Step>, i: nat): Result<Nested, StepError>
    requires i <= |steps|
    decreases |steps| - i
  {
    if i == |steps| then Ok(n)
    else
      var r := run(n.st, steps[i], StepId(steps[i], i));
      if r.Err? then Err(r.error)
      else if r.value.report.conclusion == Failure && !steps[i].continueOnError
      then Ok(Append(n, r.value).(conclusion := Failure))
      else Loop(run, Append(n, r.value), steps, i + 1)
  }

  /** The nested steps that ran, in order. */
  function Runs(run: StepRunner, n: Nested, steps: seq<Step>, i: nat): seq<Stepped>
    requires i <= |steps|
    decreases |steps| - i
  {
    if i == |steps| then []
    else
      var r := run(n.st, steps[i], StepId(steps[i], i));
      if r.Err? then []
      else [r.value] +
           if r.value.report.conclusion == Failure && !steps[i].continueOnError then []
           else Runs(run, Append(n, r.value), steps, i + 1)
  }

  lemma {:induction false} NestedIsLoop(o: Oracle, actions: Actions, depth: nat, n: Nested, steps: seq<Step>, i: nat)
    requires depth <= MAX_DEPTH && i <= |steps|
    ensures RunNested(o, actions, depth, n, steps, i) == Loop(NestedRunner(o, actions, depth), n, steps, i)
    decreases |steps| - i
  {
    if i < |steps| {
      NestedTurn(o, actions, depth, n, steps, i);
      var r := NestedRunner(o, actions, depth)(n.st, steps[i], StepId(steps[i], i));
      if r.Ok? {
        NestedIsLoop(o, actions, depth, Append(n, r.value), steps, i + 1);
      }
    }
  }

  function Stdouts(runs: seq<Stepped>): (r: seq<string>)
    ensures |r| == |runs| && forall k :: 0 <= k < |r| ==> r[k] == runs[k].report.stdout
  {
    seq(|runs|, k requires 0 <= k < |runs| => runs[k].report.stdout)
  }

  function Stderrs(runs: seq<Stepped>): (r: seq<string>)
    ensures |r| == |runs| && forall k :: 0 <= k < |r| ==> r[k] == runs[k].report.stderr
  {
    seq(|runs|, k requires 0 <= k < |runs| => runs[k].report.stderr)
  }

  lemma GlueOne(s: Stepped, rest: seq<Stepped>)
    ensures Glue(Stdouts([s] + rest)) == s.report.stdout + Glue(Stdouts(rest))
    ensures Glue(Stderrs([s] + rest)) == s.report.stderr + Glue(Stderrs(rest))
  {
    assert Stdouts([s] + rest)[1..] == Stdouts(rest);
    assert Stderrs([s] + rest)[1..] == Stderrs(rest);
  }

  lemma GlueNone()
    ensures Glue(Stdouts([])) == "" && Glue(Stderrs([])) == ""
  {
  }

  lemma GlueTurn(n: Nested, s: Stepped, rest: seq<Stepped>)
    ensures n.stdout + Glue(Stdouts([s] + rest)) == Append(n, s).stdout + Glue(Stdouts(rest))
    ensures n.stderr + Glue(Stderrs([s] + rest)) == Append(n, s).stderr + Glue(Stderrs(rest))
  {
    GlueOne(s, rest);
  }

  lemma GlueLast(n: Nested, s: Stepped)
    ensures n.stdout + Glue(Stdouts([s])) == Append(n, s).stdout
    ensures n.stderr + Glue(Stderrs([s])) == Append(n, s).stderr
  {
    assert [s] + [] == [s];
    GlueTurn(n, s, []);
    GlueNone();
  }

  /** The composite's output is the nested reports' output, joined without a gap. */
  lemma {:induction false} LoopText(run: StepRunner, n: Nested, steps: seq<Step>, i: nat)
    requires i <= |steps| && Loop(run, n, steps, i).Ok?
    ensures Loop(run, n, steps, i).value.stdout == n.stdout + Glue(Stdouts(Runs(run, n, steps, i)))
    ensures Loop(run, n, steps, i).value.stderr == n.stderr + Glue(Stderrs(Runs(run, n, steps, i)))
    decreases |steps| - i
  {
    if i == |steps| {
      GlueNone();
    } else {
      var s := run(n.st, steps[i], StepId(steps[i], i)).value;
      if s.report.conclusion == Failure && !steps[i].continueOnError {
        assert Runs(run, n, steps, i) == [s];
        GlueLast(n, s);
      } else {
        LoopText(run, Append(n, s), steps, i + 1);
        GlueTurn(n, s, Runs(run, Append(n, s), steps, i + 1));
      }
    }
  }

  /** Run k is that of nested step i + k, from some state. */
  lemma {:induction false} RunFrom(run: StepRunner, n: Nested, steps: seq<Step>, i: nat, k: nat) returns (st: State)
    requires i <= |steps| && k < |Runs(run, n, steps, i)|
    ensures i + k < |steps| && run(st, steps[i + k], StepId(steps[i + k], i + k)) == Ok(Runs(run, n, steps, i)[k])
    decreases k
  {
    st := n.st;
    if k > 0 {
      var s := run(n.st, steps[i], StepId(steps[i], i)).value;
      st := RunFrom(run, Append(n, s), steps, i + 1, k - 1);
    }
  }

  // ----- when a mask stays visible -----

  /** The composite at this depth, started in st with this environment: the nested steps that ran. */
  function CompositeRuns(o: Oracle, actions: Actions, depth: nat, st: State, steps: seq<Step>, baseEnv: Env)
    : seq<Stepped>
    requires depth < MAX_DEPTH
  {
    Runs(NestedRunner(o, actions, depth + 1), Inside(st, baseEnv), steps, 0)
  }

  /** Where the nested loop starts. */
  function Inside(st: State, baseEnv: Env): Nested {
    Nested(st.(ctx := ChildCtx(st.ctx, baseEnv)), Success, "", "")
  }

  /**
    Nested report k shows v, and is one that may: an inner composite's, or that of a direct step
    that ended before v was registered.
   */
  ghost predicate Leaks(actions: Actions, steps: seq<Step>, runs: seq<Stepped>, texts: seq<string>, v: string)
    requires |texts| == |runs| <= |steps|
  {
    exists k :: 0 <= k < |runs| && Contains(texts[k], v) && (IsComposite(actions, steps[k]) || v !in runs[k].st.masks)
  }

  lemma DirectRunsRedacted(o: Oracle, actions: Actions, depth: nat, st: State, steps: seq<Step>, baseEnv: Env,
                           v: string)
    requires depth < MAX_DEPTH && v != "" && Redaction.StarSafe(v)
    ensures var runs := CompositeRuns(o, actions, depth, st, steps, baseEnv);
            && |runs| <= |steps|
            && (SomePartContains(Stdouts(runs), v) <==> Leaks(actions, steps, runs, Stdouts(runs), v))
            && (SomePartContains(Stderrs(runs), v) <==> Leaks(actions, steps, runs, Stderrs(runs), v))
  {
    var runs := CompositeRuns(o, actions, depth, st, steps, baseEnv);
    if runs != [] {
      var last := RunOf(o, actions, depth, st, steps, baseEnv, |runs| - 1);
    }
    forall k | 0 <= k < |runs|
      ensures Contains(runs[k].report.stdout, v) || Contains(runs[k].report.stderr, v) ==>
                IsComposite(actions, steps[k]) || v !in runs[k].st.masks
    {
      if !IsComposite(actions, steps[k]) && v in runs[k].st.masks {
        var before := RunOf(o, actions, depth, st, steps, baseEnv, k);
        ReportRedacted(o, actions, depth + 1, before, steps[k], StepId(steps[k], k), v);
      }
    }
  }

  lemma RunOf(o: Oracle, actions: Actions, depth: nat, st: State, steps: seq<Step>, baseEnv: Env, k: nat)
    returns (before: State)
    requires depth < MAX_DEPTH && k < |CompositeRuns(o, actions, depth, st, steps, baseEnv)|
    ensures k < |steps|
    ensures RunStep(o, actions, depth + 1, before, steps[k], StepId(steps[k], k)) ==
              Ok(CompositeRuns(o, actions, depth, st, steps, baseEnv)[k])
  {
    before := RunFrom(NestedRunner(o, actions, depth + 1), Inside(st, baseEnv), steps, 0, k);
  }

  /**
    A composite's output shows a safe mask iff a nested report shows it, which a direct step's does
    only if it ended before the mask was registered, or an occurrence straddles two nested reports.
   */
  lemma CompositeShowsIff(o: Oracle, actions: Actions, depth: nat, st: State, steps: seq<Step>,
                          outputs: map<string, string>, baseEnv: Env, v: string)
    requires depth < MAX_DEPTH && RunComposite(o, actions, depth, st, steps, outputs, baseEnv).Ok?
    requires v != "" && Redaction.StarSafe(v)
    ensures var n := RunComposite(o, actions, depth, st, steps, outputs, baseEnv).value.0;
            var runs := CompositeRuns(o, actions, depth, st, steps, baseEnv);
            && |runs| <= |steps|
            && (Contains(n.stdout, v) <==> Leaks(actions, steps, runs, Stdouts(runs), v) || Straddles(Stdouts(runs), v))
            && (Contains(n.stderr, v) <==> Leaks(actions, steps, runs, Stderrs(runs), v) || Straddles(Stderrs(runs), v))
  {
    CompositeText(o, actions, depth, st, steps, outputs, baseEnv);
    var runs := CompositeRuns(o, actions, depth, st, steps, baseEnv);
    DirectRunsRedacted(o, actions, depth, st, steps, baseEnv, v);
    GlueContainsIff(Stdouts(runs), v);
    GlueContainsIff(Stderrs(runs), v);
  }

  lemma CompositeText(o: Oracle, actions: Actions, depth: nat, st: State, steps: seq<Step>,
                      outputs: map<string, string>, baseEnv: Env)
    requires depth < MAX_DEPTH && RunComposite(o, actions, depth, st, steps, outputs, baseEnv).Ok?
    ensures var n := RunComposite(o, actions, depth, st, steps, outputs, baseEnv).value.0;
            var runs := CompositeRuns(o, actions, depth, st, steps, baseEnv);
            n.stdout == Glue(Stdouts(runs)) && n.stderr == Glue(Stderrs(runs))
  {
    CompositeIsLoop(o, actions, depth, st, steps, outputs, baseEnv);
    WholeLoopText(NestedRunner(o, actions, depth + 1), Inside(st, baseEnv), steps);
  }

  lemma WholeLoopText(run: StepRunner, n: Nested, steps: seq<Step>)
    requires n.stdout == "" && n.stderr == "" && Loop(run, n, steps, 0).Ok?
    ensures Loop(run, n, steps, 0).value.stdout == Glue(Stdouts(Runs(run, n, steps, 0)))
    ensures Loop(run, n, steps, 0).value.stderr == Glue(Stderrs(Runs(run, n, steps, 0)))
  {
    LoopText(run, n, steps, 0);
  }

  lemma CompositeIsLoop(o: Oracle, actions: Actions, depth: nat, st: State, steps: seq<Step>,
                        outputs: map<string, string>, baseEnv: Env)
    requires depth < MAX_DEPTH && RunComposite(o, actions, depth, st, steps, outputs, baseEnv).Ok?
    ensures Loop(NestedRunner(o, actions, depth + 1), Inside(st, baseEnv), steps, 0)
              == Ok(RunComposite(o, actions, depth, st, steps, outputs, baseEnv).value.0)
  {
    CompositeIsNested(o, actions, depth, st, steps, outputs, baseEnv);
    NestedIsLoop(o, actions, depth + 1, Inside(st, baseEnv), steps, 0);
  }

  lemma CompositeIsNested(o: Oracle, actions: Actions, depth: nat, st: State, steps: seq<Step>,
                          outputs: map<string, string>, baseEnv: Env)
    requires depth < MAX_DEPTH && RunComposite(o, actions, depth, st, steps, outputs, baseEnv).Ok?
    ensures RunNested(o, actions, depth + 1, Inside(st, baseEnv), steps, 0)
              == Ok(RunComposite(o, actions, depth, st, steps, outputs, baseEnv).value.0)
  {
  }

  predicate Reports(s: Stepped, n: Nested) {
    && s.st.masks == n.st.masks && s.st.clock == n.st.clock
    && s.report.conclusion == n.conclusion && s.report.stdout == n.stdout && s.report.stderr == n.stderr
  }

  /** A step that is not skipped comes to what its direct execution or its nested loop came to. */
  predicate Came(o: Oracle, actions: Actions, depth: nat, st: State, step: Step, id: string, s: Stepped)
    requires depth <= MAX_DEPTH
  {
    var start := Prepare(o, actions, st.ctx, step, id);
    && start.Ok?
    && if IsComposite(actions, step) then
      && depth < MAX_DEPTH
      && var n := RunNested(o, actions, depth + 1, Inside(st, start.value.0), actions[step.uses].steps, 0);
      n.Ok? && Reports(s, n.value)
    else
      RunDirect(o, actions, st, step, id, start.value.0, start.value.1) == Ok(s)
  }

  lemma StepCame(o: Oracle, actions: Actions, depth: nat, st: State, step: Step, id: string)
    requires depth <= MAX_DEPTH && RunStep(o, actions, depth, st, step, id).Ok?
    ensures var s := RunStep(o, actions, depth, st, step, id).value;
            s == SkippedStep(st, id) || Came(o, actions, depth, st, step, id, s)
  {
    var start := Prepare(o, actions, st.ctx, step, id);
    if RunStep(o, actions, depth, st, step, id).value != SkippedStep(st, id) && IsComposite(actions, step) {
      var action := actions[step.uses];
      CompositeIsNested(o, actions, depth, st, action.steps, action.outputs, start.value.0);
    }
  }

  // ----- an input that shows a registered mask -----

  /** A backend that prints the command it is given, and an evaluator that substitutes nothing. */
  const ECHO := Oracle(
    (cond, ctx) => Ok(true),
    (text, ctx) => Ok(text),
    (step, ctx) => Ok(map[]),
    (clock, step, command, env) => Ok(ExecResult(0, command, "", map[], map[], map[])))

  function RunLine(command: string): Step {
    Step("", command, "", "", false, map[])
  }

  /** Print the value, then register it. */
  function PrintThenMask(v: string): seq<Step> {
    [RunLine(v), RunLine(Commands.ADD_MASK + v)]
  }

  /** One line that is not a workflow command. */
  predicate Ordinary(v: string) {
    v != "" && v[0] != ':' && '\n' !in v
  }

  lemma LoneLine(v: string, debug: bool)
    requires '\n' !in v
    ensures Commands.Masks(v) == if Commands.IsAddMask(v) then [v[|Commands.ADD_MASK|..]] else []
    ensures var r := Commands.Render(v, debug); Commands.Display(v, debug) == if r.Some? then r.value else ""
  {
    SplitNone(v, '\n');
    assert [v][1..] == [];
    assert Commands.Displayed([v][1..], debug) == [] && Commands.MaskValues([v][1..]) == [];
  }

  lemma OrdinaryShown(v: string, debug: bool)
    requires Ordinary(v)
    ensures Commands.Masks(v) == [] && Commands.Display(v, debug) == v
  {
    Commands.OrdinaryRendered(v, debug);
    LoneLine(v, debug);
  }

  lemma MaskLineShown(v: string, debug: bool)
    requires '\n' !in v
    ensures Commands.Masks(Commands.ADD_MASK + v) == [v] && Commands.Display(Commands.ADD_MASK + v, debug) == ""
  {
    LoneLine(Commands.ADD_MASK + v, debug);
  }

  lemma NothingShown(debug: bool)
    ensures Commands.Masks("") == [] && Commands.Display("", debug) == ""
  {
    LoneLine("", debug);
  }

  /** The state after an echoed line that registered `added`. */
  function Echoed(st: State, id: string, added: seq<string>): State {
    State(st.ctx.(steps := st.ctx.steps[id := StepOutcome(Success, map[])]), st.masks + added, st.clock + 1)
  }

  lemma EchoRuns(actions: Actions, depth: nat, st: State, command: string, id: string)
    requires depth <= MAX_DEPTH && st.masks == []
    ensures var r := RunStep(ECHO, actions, depth, st, RunLine(command), id);
            var masks := Commands.Masks(command);
            var debug := ShowDebug(st.ctx.env);
            && r.Ok? && r.value.st == Echoed(st, id, masks) && r.value.report.conclusion == Success
            && r.value.report.stdout == Redaction.Redact(Commands.Display(command, debug), masks)
  {
    var res := ExecResult(0, command, "", map[], map[], map[]);
    NothingShown(ShowDebug(st.ctx.env));
    assert st.ctx.env + map[] == st.ctx.env;
    assert st.masks + Commands.Masks(command) == Commands.Masks(command);
    assert AfterExec(st, id, res) == Echoed(st, id, Commands.Masks(command));
    var step := RunLine(command);
    assert Prepare(ECHO, actions, st.ctx, step, id) == Ok((map[], command));
  }

  /** The nested loop after the first echoed line. */
  lemma FirstEcho(actions: Actions, depth: nat, n: Nested, v: string) returns (n1: Nested)
    requires depth <= MAX_DEPTH && n.st.masks == [] && n.stdout == "" && Ordinary(v)
    ensures RunNested(ECHO, actions, depth, n, PrintThenMask(v), 0) ==
              RunNested(ECHO, actions, depth, n1, PrintThenMask(v), 1)
    ensures n1.st.masks == [] && n1.stdout == v
  {
    var step, id := PrintThenMask(v)[0], StepId(PrintThenMask(v)[0], 0);
    OrdinaryShown(v, ShowDebug(n.st.ctx.env));
    EchoRuns(actions, depth, n.st, v, id);
    NestedTurn(ECHO, actions, depth, n, PrintThenMask(v), 0);
    n1 := Append(n, RunStep(ECHO, actions, depth, n.st, step, id).value);
    assert n1.stdout == "" + v == v;
  }

  lemma SecondEcho(actions: Actions, depth: nat, n1: Nested, v: string) returns (n': Nested)
    requires depth <= MAX_DEPTH && n1.st.masks == [] && n1.stdout == v && v != "" && '\n' !in v
    ensures RunNested(ECHO, actions, depth, n1, PrintThenMask(v), 1) == Ok(n') && n'.stdout == v && n'.st.masks == [v]
  {
    var step, id := PrintThenMask(v)[1], StepId(PrintThenMask(v)[1], 1);
    MaskLineShown(v, ShowDebug(n1.st.ctx.env));
    EchoRuns(actions, depth, n1.st, Commands.ADD_MASK + v, id);
    NestedTurn(ECHO, actions, depth, n1, PrintThenMask(v), 1);
    NothingRedacted(v);
    n' := Append(n1, RunStep(ECHO, actions, depth, n1.st, step, id).value);
    assert n'.stdout == v + "" == v;
  }

  /** Two echoed lines, one after the other. */
  lemma TwoEchoes(actions: Actions, depth: nat, n: Nested, v: string) returns (n': Nested)
    requires depth <= MAX_DEPTH && n.st.masks == [] && n.stdout == "" && Ordinary(v)
    ensures RunNested(ECHO, actions, depth, n, PrintThenMask(v), 0) == Ok(n') && n'.stdout == v && n'.st.masks == [v]
  {
    var n1 := FirstEcho(actions, depth, n, v);
    n' := SecondEcho(actions, depth, n1, v);
  }

  lemma NothingRedacted(v: string)
    requires v != ""
    ensures Redaction.Redact("", [v]) == ""
  {
    Redaction.RedactOne("", v);
    Redaction.ShorterUntouched("", v);
  }

  lemma NoOutputs(o: Oracle, actions: Actions, depth: nat, st: State, steps: seq<Step>, baseEnv: Env, n: Nested)
    requires depth < MAX_DEPTH && RunNested(o, actions, depth + 1, Inside(st, baseEnv), steps, 0) == Ok(n)
    ensures RunComposite(o, actions, depth, st, steps, map[], baseEnv).Ok?
    ensures RunComposite(o, actions, depth, st, steps, map[], baseEnv).value.0 == n
  {
  }

  /** Printed by one nested step and registered by the next, the value stays in the composite's output. */
  lemma LateRegistrationShows(actions: Actions, depth: nat, st: State, baseEnv: Env, v: string)
    requires depth < MAX_DEPTH && st.masks == [] && Ordinary(v)
    ensures var r := RunComposite(ECHO, actions, depth, st, PrintThenMask(v), map[], baseEnv);
            r.Ok? && v in r.value.0.st.masks && Contains(r.value.0.stdout, v)
  {
    var n := TwoEchoes(actions, depth + 1, Inside(st, baseEnv), v);
    NoOutputs(ECHO, actions, depth, st, PrintThenMask(v), baseEnv, n);
    assert v[0..|v|] == v;
    assert OccursAt(v, v, 0);
  }
}
