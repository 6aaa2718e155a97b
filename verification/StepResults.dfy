/**
  What one execution comes to, key by key, and what makes a job fail: exit codes, through composites,
  up to the job's conclusion.
 */
module StepResults {
  import opened Outcomes
  import opened Text
  import opened Steps
  import opened CompositeReports
  import opened Jobs
  import Commands
  import Redaction

  // ----- maps laid over one another -----

  /** m holds the pairs of both, top's where they differ. */
  ghost predicate Overlaid(m: Env, base: Env, top: Env) {
    && (forall k :: k in m <==> k in base || k in top)
    && (forall k :: k in top ==> m[k] == top[k])
    && (forall k :: k in base && k !in top ==> m[k] == base[k])
  }

  /** An execution sees the job's env, overridden by the step's own, overridden by the action's inputs. */
  ghost predicate SeesEnv(seen: Env, job: Env, own: Env, inputs: Env) {
    exists middle :: Overlaid(middle, job, own) && Overlaid(seen, middle, inputs)
  }

  lemma OverlaidIs(m: Env, base: Env, top: Env)
    requires Overlaid(m, base, top)
    ensures m == base + top
  {
  }

  lemma SeenIs(seen: Env, job: Env, own: Env, inputs: Env)
    requires SeesEnv(seen, job, own, inputs)
    ensures seen == job + own + inputs
  {
    var middle :| Overlaid(middle, job, own) && Overlaid(seen, middle, inputs);
    OverlaidIs(middle, job, own);
    OverlaidIs(seen, middle, inputs);
  }

  // ----- one step -----

  /** The step's condition lets it run in this context; an absent condition does. */
  predicate Allowed(o: Oracle, step: Step, ctx: Ctx) {
    step.cond == "" || o.evalBool(step.cond, ctx) == Ok(true)
  }

  /** The command and the inputs a step starts with: a run: step's own text, a uses: step's prepared inputs. */
  predicate StartsWith(o: Oracle, actions: Actions, step: Step, ctx: Ctx, command: string, inputs: Env) {
    && (step.run == "" || step.uses == "")
    && if step.uses == "" then o.subst(step.run, ctx) == Ok(command) && inputs == map[]
       else step.uses in actions && command == "" && o.prepare(step, ctx) == Ok(inputs)
  }

  /** The execution of a direct step that has started came back with res. */
  ghost predicate Executes(o: Oracle, actions: Actions, st: State, step: Step, command: string, inputs: Env, seen: Env,
                           res: ExecResult)
  {
    && Allowed(o, step, st.ctx) && StartsWith(o, actions, step, st.ctx, command, inputs)
    && SeesEnv(seen, st.ctx.env, step.env, inputs)
    && o.exec(st.clock, step, command, seen) == Ok(res)
  }

  /** Success means exit code 0, and every other code is a failure. */
  predicate Judged(report: Report, exitCode: int) {
    && report.exitCode == exitCode
    && (exitCode == 0 ==> report.conclusion == Success)
    && (exitCode != 0 ==> report.conclusion == Failure)
  }

  /** The context after the execution: env updates apply, the step's entry is new, the rest stays. */
  ghost predicate CtxAfter(before: Ctx, after: Ctx, id: string, res: ExecResult, conclusion: Conclusion) {
    && Overlaid(after.env, before.env, res.envUpdates)
    && after.secrets == before.secrets
    && id in after.steps && after.steps[id].outcome == conclusion
    && Overlaid(after.steps[id].outputs, res.legacyOutputs, res.fileOutputs)
    && (forall k :: k != id ==> (k in after.steps <==> k in before.steps))
    && (forall k :: k != id && k in before.steps ==> after.steps[k] == before.steps[k])
  }

  predicate DebugOn(env: Env) {
    "ACTIONS_STEP_DEBUG" in env && env["ACTIONS_STEP_DEBUG"] == "true"
  }

  /** Both streams are shown as workflow commands have them and redacted with every mask registered by then. */
  predicate ShownRedacted(report: Report, res: ExecResult, after: State) {
    && report.stdout == Redaction.Redact(Commands.Display(res.stdout, DebugOn(after.ctx.env)), after.masks)
    && report.stderr == Redaction.Redact(Commands.Display(res.stderr, DebugOn(after.ctx.env)), after.masks)
  }

  /** A node action with a post entry point leaves it behind, with the inputs of its main entry point. */
  predicate PostLeft(actions: Actions, step: Step, id: string, inputs: Env, post: Option<Post>) {
    if step.uses in actions && step.uses != "" && actions[step.uses].Direct? && actions[step.uses].post.Some?
    then post == Some(Post(id, actions[step.uses].post.value, inputs))
    else post == None
  }

  /** Everything a direct execution leaves behind. */
  lemma ExecutedStep(o: Oracle, actions: Actions, depth: nat, st: State, step: Step, id: string, command: string,
                     inputs: Env, seen: Env, res: ExecResult)
    requires depth <= MAX_DEPTH && !IsComposite(actions, step)
    requires Executes(o, actions, st, step, command, inputs, seen, res)
    ensures RunStep(o, actions, depth, st, step, id).Ok?
    ensures var r := RunStep(o, actions, depth, st, step, id).value;
            && r.report.id == id && Judged(r.report, res.exitCode)
            && CtxAfter(st.ctx, r.st.ctx, id, res, r.report.conclusion)
            && r.st.masks == st.masks + Commands.Masks(res.stdout) + Commands.Masks(res.stderr)
            && r.st.clock == st.clock + 1
            && ShownRedacted(r.report, res, r.st)
            && PostLeft(actions, step, id, inputs, r.post)
  {
    SeenIs(seen, st.ctx.env, step.env, inputs);
    assert RunStep(o, actions, depth, st, step, id) == RunDirect(o, actions, st, step, id, inputs, command);
    DirectLeaves(o, actions, st, step, id, inputs, command, res);
  }

  lemma DirectLeaves(o: Oracle, actions: Actions, st: State, step: Step, id: string, inputs: Env, command: string,
                     res: ExecResult)
    requires o.exec(st.clock, step, command, st.ctx.env + step.env + inputs) == Ok(res)
    ensures RunDirect(o, actions, st, step, id, inputs, command).Ok?
    ensures var r := RunDirect(o, actions, st, step, id, inputs, command).value;
            && r.report.id == id && Judged(r.report, res.exitCode)
            && CtxAfter(st.ctx, r.st.ctx, id, res, r.report.conclusion)
            && r.st.masks == st.masks + Commands.Masks(res.stdout) + Commands.Masks(res.stderr)
            && r.st.clock == st.clock + 1
            && ShownRedacted(r.report, res, r.st)
            && PostLeft(actions, step, id, inputs, r.post)
  {
    var after := AfterExec(st, id, res);
    ExecLeaves(st, id, res);
    ExecReports(after, id, res);
    assert RunDirect(o, actions, st, step, id, inputs, command) ==
           Ok(Stepped(after, ExecReport(after, id, res), PostOf(actions, step, id, inputs)));
  }

  lemma ExecLeaves(st: State, id: string, res: ExecResult)
    ensures var after := AfterExec(st, id, res);
            && CtxAfter(st.ctx, after.ctx, id, res, if res.exitCode == 0 then Success else Failure)
            && after.masks == st.masks + Commands.Masks(res.stdout) + Commands.Masks(res.stderr)
            && after.clock == st.clock + 1
  {
  }

  lemma ExecReports(after: State, id: string, res: ExecResult)
    ensures var report := ExecReport(after, id, res);
            report.id == id && Judged(report, res.exitCode) && ShownRedacted(report, res, after)
  {
  }

  /** A step whose condition is false is skipped and leaves all but its own entry as it was. */
  lemma SkippedStepLeaves(o: Oracle, actions: Actions, depth: nat, st: State, step: Step, id: string)
    requires depth <= MAX_DEPTH && (step.run == "" || step.uses == "")
    requires step.cond != "" && o.evalBool(step.cond, st.ctx) == Ok(false)
    ensures RunStep(o, actions, depth, st, step, id).Ok?
    ensures var r := RunStep(o, actions, depth, st, step, id).value;
            && r.report == Report(id, Skipped, 0, "", "") && r.post == None
            && r.st.masks == st.masks && r.st.clock == st.clock
            && r.st.ctx.env == st.ctx.env && r.st.ctx.secrets == st.ctx.secrets
            && r.st.ctx.steps == st.ctx.steps[id := StepOutcome(Skipped, map[])]
  {
  }

  /** What can go wrong before or at the execution of a direct step, and nothing else can. */
  lemma DirectFailsIff(o: Oracle, actions: Actions, depth: nat, st: State, step: Step, id: string)
    requires depth <= MAX_DEPTH && !IsComposite(actions, step)
    ensures RunStep(o, actions, depth, st, step, id).Ok? <==>
              || ((step.run == "" || step.uses == "") &&
                   step.cond != "" && o.evalBool(step.cond, st.ctx) == Ok(false))
              || exists command, inputs, seen, res :: Executes(o, actions, st, step, command, inputs, seen, res)
  {
    if exists command, inputs, seen, res :: Executes(o, actions, st, step, command, inputs, seen, res) {
      var command, inputs, seen, res :| Executes(o, actions, st, step, command, inputs, seen, res);
      ExecutedStep(o, actions, depth, st, step, id, command, inputs, seen, res);
    }
    if RunStep(o, actions, depth, st, step, id).Ok? {
      if Allowed(o, step, st.ctx) {
        var command, inputs, seen, res := ExecutionOf(o, actions, depth, st, step, id);
      }
    }
  }

  lemma ExecutionOf(o: Oracle, actions: Actions, depth: nat, st: State, step: Step, id: string)
    returns (command: string, inputs: Env, seen: Env, res: ExecResult)
    requires depth <= MAX_DEPTH && !IsComposite(actions, step) && Allowed(o, step, st.ctx)
    requires RunStep(o, actions, depth, st, step, id).Ok?
    ensures Executes(o, actions, st, step, command, inputs, seen, res)
  {
    var start := Prepare(o, actions, st.ctx, step, id).value;
    inputs, command := start.0, start.1;
    var middle := st.ctx.env + step.env;
    seen := middle + inputs;
    assert Overlaid(middle, st.ctx.env, step.env) && Overlaid(seen, middle, inputs);
    res := o.exec(st.clock, step, command, seen).value;
  }

  // ----- one composite -----

  /** What a composite's steps start from: the caller's env overridden by the inputs, no Steps, no secrets. */
  ghost predicate Enters(st: State, inputs: Env, start: State) {
    && Overlaid(start.ctx.env, st.ctx.env, inputs) && start.ctx.steps == map[] && start.ctx.secrets == map[]
    && start.masks == st.masks && start.clock == st.clock
  }

  /**
    The caller's side of a composite: it takes the nested loop's conclusion, output text and masks,
    evaluates the declared outputs in the nested scope, and leaves all else of the caller's context alone.
   */
  lemma CompositeLeaves(o: Oracle, actions: Actions, depth: nat, st: State, step: Step, id: string)
    returns (start: State, n: Nested)
    requires depth <= MAX_DEPTH && IsComposite(actions, step) && Allowed(o, step, st.ctx)
    requires RunStep(o, actions, depth, st, step, id).Ok?
    ensures depth < MAX_DEPTH && o.prepare(step, st.ctx).Ok? && Enters(st, o.prepare(step, st.ctx).value, start)
    ensures RunNested(o, actions, depth + 1, Nested(start, Success, "", ""), actions[step.uses].steps, 0) == Ok(n)
    ensures var r := RunStep(o, actions, depth, st, step, id).value;
            && r.report == Report(id, n.conclusion, 0, n.stdout, n.stderr) && r.post == None
            && r.st.masks == n.st.masks && r.st.clock == n.st.clock
            && r.st.ctx.env == st.ctx.env && r.st.ctx.secrets == st.ctx.secrets
            && id in r.st.ctx.steps && r.st.ctx.steps[id].outcome == n.conclusion
            && (forall k :: k != id ==> (k in r.st.ctx.steps <==> k in st.ctx.steps))
            && (forall k :: k != id && k in st.ctx.steps ==> r.st.ctx.steps[k] == st.ctx.steps[k])
            && Evaluated(o, actions[step.uses].outputs, n.st.ctx, r.st.ctx.steps[id].outputs)
  {
    var action := actions[step.uses];
    var inputs := o.prepare(step, st.ctx).value;
    assert RunStep(o, actions, depth, st, step, id) ==
           AfterComposite(st, id, RunComposite(o, actions, depth, st, action.steps, action.outputs, inputs));
    CompositeIsNested(o, actions, depth, st, action.steps, action.outputs, inputs);
    start := Inside(st, inputs).st;
    n := RunComposite(o, actions, depth, st, action.steps, action.outputs, inputs).value.0;
    EachEvaluated(o, action.outputs, n.st.ctx);
  }

  /** Every declared expression has its value in this context, and nothing else has. */
  predicate Evaluated(o: Oracle, exprs: map<string, string>, ctx: Ctx, vals: Env) {
    && vals.Keys == exprs.Keys
    && (forall n :: n in exprs ==> o.subst(exprs[n], ctx) == Ok(vals[n]))
  }

  lemma EachEvaluated(o: Oracle, exprs: map<string, string>, ctx: Ctx)
    requires EvalOutputs(o, exprs, ctx).Some?
    ensures Evaluated(o, exprs, ctx, EvalOutputs(o, exprs, ctx).value)
  {
  }

  /** Nested reports join without a gap, and a composite's output is nothing else. */
  lemma NestedText(o: Oracle, actions: Actions, depth: nat, start: State, steps: seq<Step>)
    requires depth <= MAX_DEPTH && RunNested(o, actions, depth, Nested(start, Success, "", ""), steps, 0).Ok?
    ensures var n := Nested(start, Success, "", "");
            var end := RunNested(o, actions, depth, n, steps, 0).value;
            var runs := Runs(NestedRunner(o, actions, depth), n, steps, 0);
            end.stdout == Glue(Stdouts(runs)) && end.stderr == Glue(Stderrs(runs))
  {
    var n := Nested(start, Success, "", "");
    NestedIsLoop(o, actions, depth, n, steps, 0);
    WholeLoopText(NestedRunner(o, actions, depth), n, steps);
  }

  // ----- what breaks a step -----

  /**
    The step came back broken: a direct step with an exit code other than 0, or a composite one of
    whose nested steps, not excused by continue-on-error, came back broken at its turn.
   */
  ghost predicate Broke(o: Oracle, actions: Actions, depth: nat, st: State, step: Step)
    requires depth <= MAX_DEPTH
    decreases MAX_DEPTH - depth, 0
  {
    if IsComposite(actions, step) then
      && Allowed(o, step, st.ctx) && depth < MAX_DEPTH && o.prepare(step, st.ctx).Ok?
      && var inside := Inside(st, o.prepare(step, st.ctx).value).st;
      SomeBreaks(o, actions, depth + 1, inside, actions[step.uses].steps, 0)
    else
      exists command, inputs, seen, res ::
        Executes(o, actions, st, step, command, inputs, seen, res) && res.exitCode != 0
  }

  /** Step k, at its turn in a loop begun in st, came back broken and is not excused by continue-on-error. */
  ghost predicate BreaksAt(o: Oracle, actions: Actions, depth: nat, st: State, steps: seq<Step>, k: nat)
    requires depth <= MAX_DEPTH && k < |steps|
    decreases MAX_DEPTH - depth, 1
  {
    !steps[k].continueOnError &&
    Broke(o, actions, depth, StateBefore(NestedRunner(o, actions, depth), st, steps, k), steps[k])
  }

  /** A step reports failure iff it broke; one that is not skipped and did not break reports success. */
  ghost predicate Truthful(o: Oracle, actions: Actions, st: State, step: Step, report: Report, broke: bool) {
    && (report.conclusion == Failure <==> broke)
    && (report.conclusion == Skipped <==> !Allowed(o, step, st.ctx))
  }

  lemma DirectTruthful(o: Oracle, actions: Actions, depth: nat, st: State, step: Step, id: string)
    requires depth <= MAX_DEPTH && !IsComposite(actions, step) && RunStep(o, actions, depth, st, step, id).Ok?
    ensures Truthful(o, actions, st, step, RunStep(o, actions, depth, st, step, id).value.report,
                     Broke(o, actions, depth, st, step))
  {
    if Allowed(o, step, st.ctx) {
      var command, inputs, seen, res := ExecutionOf(o, actions, depth, st, step, id);
      ExecutedStep(o, actions, depth, st, step, id, command, inputs, seen, res);
      forall command', inputs', seen', res' | Executes(o, actions, st, step, command', inputs', seen', res')
        ensures res' == res
      {
        SeenIs(seen, st.ctx.env, step.env, inputs);
        SeenIs(seen', st.ctx.env, step.env, inputs');
      }
    }
  }

  /** An allowed composite step comes to what its nested loop came to. */
  lemma AllowedCame(o: Oracle, actions: Actions, depth: nat, st: State, step: Step, id: string)
    requires depth <= MAX_DEPTH && IsComposite(actions, step) && Allowed(o, step, st.ctx)
    requires RunStep(o, actions, depth, st, step, id).Ok?
    ensures Came(o, actions, depth, st, step, id, RunStep(o, actions, depth, st, step, id).value)
    ensures depth < MAX_DEPTH && o.prepare(step, st.ctx).Ok?
    ensures Prepare(o, actions, st.ctx, step, id) == Ok((o.prepare(step, st.ctx).value, ""))
  {
    var action := actions[step.uses];
    var inputs := o.prepare(step, st.ctx).value;
    assert RunStep(o, actions, depth, st, step, id) ==
           AfterComposite(st, id, RunComposite(o, actions, depth, st, action.steps, action.outputs, inputs));
    CompositeIsNested(o, actions, depth, st, action.steps, action.outputs, inputs);
  }

  /** Some nested step breaks the composite, begun in this state. */
  ghost predicate SomeBreaks(o: Oracle, actions: Actions, depth: nat, st: State, steps: seq<Step>, i: nat)
    requires depth <= MAX_DEPTH
    decreases MAX_DEPTH - depth, 2
  {
    exists k :: i <= k < |steps| && BreaksAt(o, actions, depth, st, steps, k)
  }

  lemma {:induction false} StepTruthful(o: Oracle, actions: Actions, depth: nat, st: State, step: Step, id: string)
    requires depth <= MAX_DEPTH && RunStep(o, actions, depth, st, step, id).Ok?
    ensures Truthful(o, actions, st, step, RunStep(o, actions, depth, st, step, id).value.report,
                     Broke(o, actions, depth, st, step))
    decreases MAX_DEPTH - depth, 0, 0
  {
    if !IsComposite(actions, step) {
      DirectTruthful(o, actions, depth, st, step, id);
    } else if Allowed(o, step, st.ctx) {
      AllowedCame(o, actions, depth, st, step, id);
      var inside := Inside(st, o.prepare(step, st.ctx).value);
      LoopTruthful(o, actions, depth + 1, inside.st, inside, actions[step.uses].steps, 0);
    }
  }

  /** The nested loop ends in failure iff some step from i on breaks it. */
  lemma {:induction false} LoopTruthful(o: Oracle, actions: Actions, depth: nat, st: State, n: Nested,
                                        steps: seq<Step>, i: nat)
    requires depth <= MAX_DEPTH && i <= |steps| && RunNested(o, actions, depth, n, steps, i).Ok?
    requires n.conclusion == Success && n.st == StateBefore(NestedRunner(o, actions, depth), st, steps, i)
    ensures var c := RunNested(o, actions, depth, n, steps, i).value.conclusion;
            (c == Success || c == Failure) && (c == Failure <==> SomeBreaks(o, actions, depth, st, steps, i))
    decreases MAX_DEPTH - depth, 3, |steps| - i
  {
    if i < |steps| {
      var id := StepId(steps[i], i);
      NestedTurn(o, actions, depth, n, steps, i);
      StepTruthful(o, actions, depth, n.st, steps[i], id);
      var s := RunStep(o, actions, depth, n.st, steps[i], id).value;
      FatalBreaks(o, actions, depth, st, steps, i, s.report);
      if !(s.report.conclusion == Failure && !steps[i].continueOnError) {
        StateAfter(NestedRunner(o, actions, depth), st, steps, i, s);
        LoopTruthful(o, actions, depth, st, Append(n, s), steps, i + 1);
      }
    }
  }

  lemma StateAfter(run: StepRunner, st: State, steps: seq<Step>, i: nat, s: Stepped)
    requires i < |steps| && run(StateBefore(run, st, steps, i), steps[i], StepId(steps[i], i)) == Ok(s)
    ensures StateBefore(run, st, steps, i + 1) == s.st
  {
  }

  lemma FatalBreaks(o: Oracle, actions: Actions, depth: nat, st: State, steps: seq<Step>, i: nat, report: Report)
    requires depth <= MAX_DEPTH && i < |steps|
    requires var before := StateBefore(NestedRunner(o, actions, depth), st, steps, i);
             Truthful(o, actions, before, steps[i], report, Broke(o, actions, depth, before, steps[i]))
    ensures (report.conclusion == Failure && !steps[i].continueOnError) == BreaksAt(o, actions, depth, st, steps, i)
    ensures SomeBreaks(o, actions, depth, st, steps, i) <==>
              BreaksAt(o, actions, depth, st, steps, i) || SomeBreaks(o, actions, depth, st, steps, i + 1)
  {
  }

  /** Step k, at its turn, came back with a report that ends the loop. */
  predicate FatalAt(run: StepRunner, st: State, steps: seq<Step>, k: nat)
    requires k < |steps|
  {
    StepAt(run, st, steps, k).Ok? && Fatal(StepAt(run, st, steps, k).value.report, steps[k])
  }

  /** The loop takes its steps up to the first fatal one and none behind that one. */
  lemma {:induction false} LoopStops(run: StepRunner, st: State, n: Nested, steps: seq<Step>, i: nat) returns (m: nat)
    requires i <= |steps| && Loop(run, n, steps, i).Ok? && n.st == StateBefore(run, st, steps, i)
    ensures i <= m <= |steps| && Loop(run, n, steps, i).value.st == StateBefore(run, st, steps, m)
    ensures m < |steps| ==> m > i && FatalAt(run, st, steps, m - 1)
    ensures forall k :: i <= k < m ==> StepAt(run, st, steps, k).Ok?
    ensures forall k :: i <= k < m - 1 ==> !FatalAt(run, st, steps, k)
    decreases |steps| - i
  {
    m := i;
    if i < |steps| {
      var s := run(n.st, steps[i], StepId(steps[i], i)).value;
      StateAfter(run, st, steps, i, s);
      m := i + 1;
      if !Fatal(s.report, steps[i]) {
        m := LoopStops(run, st, Append(n, s), steps, i + 1);
      }
    }
  }

  lemma FatalIsBreak(o: Oracle, actions: Actions, depth: nat, st: State, steps: seq<Step>, k: nat)
    requires depth <= MAX_DEPTH && k < |steps| && StepAt(NestedRunner(o, actions, depth), st, steps, k).Ok?
    ensures FatalAt(NestedRunner(o, actions, depth), st, steps, k) <==> BreaksAt(o, actions, depth, st, steps, k)
  {
    var before := StateBefore(NestedRunner(o, actions, depth), st, steps, k);
    StepTruthful(o, actions, depth, before, steps[k], StepId(steps[k], k));
  }

  /** A composite runs its steps up to the first one that breaks it and none behind that one. */
  lemma NestedStops(o: Oracle, actions: Actions, depth: nat, st: State, steps: seq<Step>) returns (m: nat)
    requires depth <= MAX_DEPTH && RunNested(o, actions, depth, Nested(st, Success, "", ""), steps, 0).Ok?
    ensures m <= |steps|
    ensures RunNested(o, actions, depth, Nested(st, Success, "", ""), steps, 0).value.st ==
              StateBefore(NestedRunner(o, actions, depth), st, steps, m)
    ensures m < |steps| ==> m > 0 && BreaksAt(o, actions, depth, st, steps, m - 1)
    ensures forall k :: 0 <= k < m - 1 ==> !BreaksAt(o, actions, depth, st, steps, k)
  {
    var run, n := NestedRunner(o, actions, depth), Nested(st, Success, "", "");
    NestedIsLoop(o, actions, depth, n, steps, 0);
    m := LoopStops(run, st, n, steps, 0);
    forall k | 0 <= k < m ensures FatalAt(run, st, steps, k) <==> BreaksAt(o, actions, depth, st, steps, k) {
      FatalIsBreak(o, actions, depth, st, steps, k);
    }
  }

  // ----- the job -----

  /** The step loop's report k is fatal iff step k breaks at its turn. */
  lemma ReportBreaks(o: Oracle, actions: Actions, st: State, steps: seq<Step>, k: nat)
    requires k < |steps| && StepAt(TopRunner(o, actions), st, steps, k).Ok?
    ensures Fatal(StepAt(TopRunner(o, actions), st, steps, k).value.report, steps[k]) <==>
              BreaksAt(o, actions, 0, st, steps, k)
  {
    FatalIsBreak(o, actions, 0, st, steps, k);
  }

  /** Some of the first `ran` steps breaks the job, begun in this state. */
  ghost predicate BrokenBy(o: Oracle, actions: Actions, st: State, steps: seq<Step>, ran: nat) {
    exists k :: 0 <= k < ran <= |steps| && BreaksAt(o, actions, 0, st, steps, k)
  }

  /** Only the last step executed can break the job, and steps are left out only if it does. */
  ghost predicate BrokenAtEnd(o: Oracle, actions: Actions, st: State, steps: seq<Step>, ran: nat)
    requires ran <= |steps|
  {
    && (forall k :: 0 <= k < ran - 1 ==> !BreaksAt(o, actions, 0, st, steps, k))
    && (ran < |steps| ==> ran > 0 && BreaksAt(o, actions, 0, st, steps, ran - 1))
  }

  /** Which of the reported steps break the job. */
  ghost function Breaks(o: Oracle, actions: Actions, st: State, steps: seq<Step>, ran: nat): (b: seq<bool>)
    requires ran <= |steps|
    ensures |b| == ran && forall k :: 0 <= k < ran ==> b[k] == BreaksAt(o, actions, 0, st, steps, k)
  {
    seq(ran, k requires 0 <= k < ran => BreaksAt(o, actions, 0, st, steps, k))
  }

  lemma LastBreaks(steps: seq<Step>, reports: seq<Report>, c: Conclusion, b: seq<bool>)
    requires StopsAtFirstFatal(steps, reports, c) && |b| == |reports|
    requires forall k :: 0 <= k < |b| ==> b[k] == Fatal(reports[k], steps[k])
    ensures forall k :: 0 <= k < |b| - 1 ==> !b[k]
    ensures |b| < |steps| ==> |b| > 0 && b[|b| - 1]
    ensures c == if exists k :: 0 <= k < |b| && b[k] then Failure else Success
  {
  }

  lemma LoopVerdict(o: Oracle, actions: Actions, st: State, steps: seq<Step>, reports: seq<Report>, c: Conclusion)
    requires RanInTurn(TopRunner(o, actions), st, steps, reports) && StopsAtFirstFatal(steps, reports, c)
    ensures BrokenAtEnd(o, actions, st, steps, |reports|)
    ensures c == if BrokenBy(o, actions, st, steps, |reports|) then Failure else Success
  {
    var b := Breaks(o, actions, st, steps, |reports|);
    forall k | 0 <= k < |reports| ensures b[k] == Fatal(reports[k], steps[k]) {
      ReportBreaks(o, actions, st, steps, k);
    }
    LastBreaks(steps, reports, c, b);
    BrokenByOne(o, actions, st, steps, b);
  }

  lemma BrokenByOne(o: Oracle, actions: Actions, st: State, steps: seq<Step>, b: seq<bool>)
    requires |b| <= |steps| && forall k :: 0 <= k < |b| ==> b[k] == BreaksAt(o, actions, 0, st, steps, k)
    ensures BrokenBy(o, actions, st, steps, |b|) <==> exists k :: 0 <= k < |b| && b[k]
  {
  }

  /**
    The job's conclusion is failure iff a step that was executed, and that continue-on-error does not
    excuse, came back broken; it is the last one executed. Otherwise all steps had their turn and the
    conclusion is success, whatever the post actions come to.
   */
  lemma JobVerdict(o: JobOracle, actions: Actions, ctx: Ctx, steps: seq<Step>, outputs: map<string, string>)
    returns (ran: nat)
    requires RunJob(o, actions, ctx, steps, outputs).Ok?
    ensures var r := RunJob(o, actions, ctx, steps, outputs).value;
            && ran <= |steps| && ran <= |r.reports|
            && RanInTurn(TopRunner(o.steps, actions), State(ctx, [], 0), steps, r.reports[..ran])
            && (forall k :: 0 <= k < ran ==> Named(r.reports[k], steps[k], k))
            && BrokenAtEnd(o.steps, actions, State(ctx, [], 0), steps, ran)
            && r.conclusion == if BrokenBy(o.steps, actions, State(ctx, [], 0), steps, ran) then Failure else Success
  {
    var top, reg, added, idx := JobReports(o, actions, ctx, steps, outputs);
    ran := |top.reports|;
    var r := RunJob(o, actions, ctx, steps, outputs).value;
    assert r.reports[..ran] == top.reports;
    ReportsNamed(o.steps, actions, State(ctx, [], 0), steps, top.reports);
    LoopVerdict(o.steps, actions, State(ctx, [], 0), steps, top.reports, r.conclusion);
  }

  /** The report carries the step's own id, or one made from its position. */
  predicate Named(report: Report, step: Step, k: nat) {
    report.id == if step.id != "" then step.id else "step-" + Decimal(k)
  }

  lemma ReportsNamed(o: Oracle, actions: Actions, st: State, steps: seq<Step>, reports: seq<Report>)
    requires RanInTurn(TopRunner(o, actions), st, steps, reports)
    ensures forall k :: 0 <= k < |reports| ==> Named(reports[k], steps[k], k)
  {
    forall k | 0 <= k < |reports| ensures Named(reports[k], steps[k], k) {
      TopStepRecorded(o, actions, st, steps, k);
    }
  }

  /** The job's outputs are the declared expressions, each evaluated in one context, that of the end of the job. */
  lemma JobOutputs(o: JobOracle, actions: Actions, ctx: Ctx, steps: seq<Step>, outputs: map<string, string>)
    returns (end: Ctx)
    requires RunJob(o, actions, ctx, steps, outputs).Ok?
    ensures Evaluated(o.steps, outputs, end, RunJob(o, actions, ctx, steps, outputs).value.outputs)
    ensures RunTop(TopRunner(o.steps, actions), Begin(State(ctx, [], 0)), steps, 0).Ok?
    ensures var top := RunTop(TopRunner(o.steps, actions), Begin(State(ctx, [], 0)), steps, 0).value;
            var posted := RunPosts(o, PostProgress(top.st, top.reports), top.posts);
            posted.Ok? && end == posted.value.st.ctx
  {
    var top := RunTop(TopRunner(o.steps, actions), Begin(State(ctx, [], 0)), steps, 0).value;
    end := RunPosts(o, PostProgress(top.st, top.reports), top.posts).value.st.ctx;
    EachEvaluated(o.steps, outputs, end);
  }

  // ----- post actions -----

  /**
    A post action that runs is judged by its own exit code, sees the job's env overridden by its
    main entry point's inputs, shows its output as it is, and changes the job's env alone.
   */
  lemma PostLeaves(o: JobOracle, p: PostProgress, post: Post, seen: Env, res: ExecResult)
    requires post.postIf == "" || o.steps.evalBool(post.postIf, p.st.ctx) == Ok(true)
    requires Overlaid(seen, p.st.ctx.env, post.env) && o.execPost(p.st.clock, post, seen) == Ok(res)
    ensures RunOnePost(o, p, post).Ok?
    ensures var r := RunOnePost(o, p, post).value;
            && |r.reports| == |p.reports| + 1 && r.reports[..|p.reports|] == p.reports
            && var report := r.reports[|p.reports|];
            && report.id == post.stepId + "-post" && Judged(report, res.exitCode)
            && report.stdout == res.stdout && report.stderr == res.stderr
            && Overlaid(r.st.ctx.env, p.st.ctx.env, res.envUpdates)
            && r.st.ctx.steps == p.st.ctx.steps && r.st.ctx.secrets == p.st.ctx.secrets
            && r.st.masks == p.st.masks && r.st.clock == p.st.clock + 1
  {
    OverlaidIs(seen, p.st.ctx.env, post.env);
  }
}
