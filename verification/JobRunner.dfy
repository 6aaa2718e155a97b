/**
  runStep, runCompositeSteps and RunJob as the source runs them: a context and a mask list that
  steps update in place. A composite's steps get a context of their own but share the mask list.
 */
module JobRunner {
  import opened Outcomes
  import opened Steps
  import opened Jobs
  import Commands
  import Redaction

  class JobContext {
    var env: Env
    var steps: map<string, StepOutcome>
    const secrets: Env

    constructor (ctx: Ctx)
      ensures Value() == ctx
    {
      env, steps, secrets := ctx.env, ctx.steps, ctx.secrets;
    }

    function Value(): Ctx
      reads this
    {
      Ctx(env, steps, secrets)
    }
  }

  /** What every step of a job shares: the mask list, and the backend, which counts its executions. */
  class JobShared {
    var masks: seq<string>
    var clock: nat

    constructor ()
      ensures masks == [] && clock == 0
    {
      masks, clock := [], 0;
    }
  }

  function Snapshot(actx: JobContext, shared: JobShared): State
    reads actx, shared
  {
    State(actx.Value(), shared.masks, shared.clock)
  }

  /** The result of a step, with its new state in the objects rather than in the value. */
  ghost predicate Refines(r: Result<(Report, Option<Post>), StepError>, spec: Result<Stepped, StepError>,
                          actx: JobContext, shared: JobShared)
    reads actx, shared
  {
    match spec
    case Ok(s) => r == Ok((s.report, s.post)) && Snapshot(actx, shared) == s.st
    case Err(e) => r == Err(e)
  }

  method Execute(o: Oracle, actions: Actions, actx: JobContext, shared: JobShared, step: Step, id: string, inputs: Env,
                 command: string)
    returns (r: Result<(Report, Option<Post>), StepError>)
    modifies actx, shared
    ensures Refines(r, RunDirect(o, actions, old(Snapshot(actx, shared)), step, id, inputs, command), actx, shared)
  {
    var env := actx.env + step.env + inputs;
    var e := o.exec(shared.clock, step, command, env);
    shared.clock := shared.clock + 1;
    if e.Err? {
      return Err(ExecFailed(id));
    }
    var conclusion := Record(actx, id, e.value);
    var stdout, stderr := Annotate(shared, e.value, ShowDebug(actx.env));
    return Ok((Report(id, conclusion, e.value.exitCode, stdout, stderr), PostOf(actions, step, id, inputs)));
  }

  /** The step's env updates, its outputs and its conclusion, in the context of the steps after it. */
  method Record(actx: JobContext, id: string, res: ExecResult) returns (conclusion: Conclusion)
    modifies actx
    ensures conclusion == Verdict(res.exitCode)
    ensures actx.env == old(actx.env) + res.envUpdates
    ensures actx.steps == old(actx.steps)[id := StepOutcome(conclusion, res.legacyOutputs + res.fileOutputs)]
  {
    var outputs := res.legacyOutputs + res.fileOutputs;
    actx.env := actx.env + res.envUpdates;
    conclusion := Verdict(res.exitCode);
    actx.steps := actx.steps[id := StepOutcome(conclusion, outputs)];
  }

  /** Registers the masks of both streams, then renders and redacts each. */
  method Annotate(shared: JobShared, res: ExecResult, debug: bool) returns (stdout: string, stderr: string)
    modifies shared`masks
    ensures shared.masks == old(shared.masks) + Commands.Masks(res.stdout) + Commands.Masks(res.stderr)
    ensures stdout == Redaction.Redact(Commands.Display(res.stdout, debug), shared.masks)
    ensures stderr == Redaction.Redact(Commands.Display(res.stderr, debug), shared.masks)
  {
    var outMasks, errMasks;
    stdout, outMasks := Commands.ProcessWorkflowCommands(res.stdout, debug);
    stderr, errMasks := Commands.ProcessWorkflowCommands(res.stderr, debug);
    shared.masks := shared.masks + outMasks + errMasks;
    stdout := Redaction.RedactMasks(stdout, shared.masks);
    stderr := Redaction.RedactMasks(stderr, shared.masks);
  }

  method RunStepIn(o: Oracle, actions: Actions, depth: nat, actx: JobContext, shared: JobShared, step: Step, id: string)
    returns (r: Result<(Report, Option<Post>), StepError>)
    requires depth <= MAX_DEPTH
    modifies actx, shared
    ensures Refines(r, RunStep(o, actions, depth, old(Snapshot(actx, shared)), step, id), actx, shared)
    decreases MAX_DEPTH - depth, 1, 0
  {
    if step.run != "" && step.uses != "" {
      return Err(BothRunAndUses(id));
    }
    if step.cond != "" {
      var ok := o.evalBool(step.cond, actx.Value());
      if ok.Err? {
        return Err(CondFailed(id));
      }
      if !ok.value {
        actx.steps := actx.steps[id := StepOutcome(Skipped, map[])];
        return Ok((Report(id, Skipped, 0, "", ""), None));
      }
    }
    var start := Prepare(o, actions, actx.Value(), step, id);
    if start.Err? {
      return Err(start.error);
    }
    if IsComposite(actions, step) {
      var comp := actions[step.uses];
      var c := RunCompositeSteps(o, actions, depth, actx, shared, comp.steps, comp.outputs, start.value.0);
      if c.Err? {
        return Err(c.error);
      }
      var (conclusion, outputs, stdout, stderr) := c.value;
      actx.steps := actx.steps[id := StepOutcome(conclusion, outputs)];
      return Ok((Report(id, conclusion, 0, stdout, stderr), None));
    }
    r := Execute(o, actions, actx, shared, step, id, start.value.0, start.value.1);
  }

  method RunCompositeSteps(o: Oracle, actions: Actions, depth: nat, parent: JobContext, shared: JobShared,
                           steps: seq<Step>, outputExprs: map<string, string>, baseEnv: Env)
    returns (r: Result<(Conclusion, Env, string, string), StepError>)
    requires depth <= MAX_DEPTH
    modifies shared
    ensures match RunComposite(o, actions, depth, old(Snapshot(parent, shared)), steps, outputExprs, baseEnv)
            case Ok(c) =>
              && r == Ok((c.0.conclusion, c.1, c.0.stdout, c.0.stderr))
              && shared.masks == c.0.st.masks && shared.clock == c.0.st.clock
            case Err(e) => r == Err(e)
    decreases MAX_DEPTH - depth, 0, 0
  {
    if depth + 1 > MAX_DEPTH {
      return Err(TooDeep);
    }
    var child := new JobContext(ChildCtx(parent.Value(), baseEnv));
    var n := RunNestedSteps(o, actions, depth + 1, child, shared, steps);
    if n.Err? {
      return Err(n.error);
    }
    var (conclusion, stdout, stderr) := n.value;
    var outputs := EvalOutputs(o, outputExprs, child.Value());
    if outputs.None? {
      return Err(OutputFailed);
    }
    return Ok((conclusion, outputs.value, stdout, stderr));
  }

  method RunNestedSteps(o: Oracle, actions: Actions, depth: nat, child: JobContext, shared: JobShared, steps: seq<Step>)
    returns (r: Result<(Conclusion, string, string), StepError>)
    requires depth <= MAX_DEPTH
    modifies child, shared
    ensures match RunNested(o, actions, depth, Nested(old(Snapshot(child, shared)), Success, "", ""), steps, 0)
            case Ok(n) => r == Ok((n.conclusion, n.stdout, n.stderr)) && Snapshot(child, shared) == n.st
            case Err(e) => r == Err(e)
    decreases MAX_DEPTH - depth, 2, 0
  {
    ghost var end := RunNested(o, actions, depth, Nested(Snapshot(child, shared), Success, "", ""), steps, 0);
    var stdout, stderr := "", "";
    var i := 0;
    while i < |steps|
      invariant 0 <= i <= |steps|
      invariant end == RunNested(o, actions, depth, Nested(Snapshot(child, shared), Success, stdout, stderr), steps, i)
    {
      NestedTurn(o, actions, depth, Nested(Snapshot(child, shared), Success, stdout, stderr), steps, i);
      var s := RunStepIn(o, actions, depth, child, shared, steps[i], StepId(steps[i], i));
      if s.Err? {
        return Err(s.error);
      }
      var report := s.value.0;
      stdout, stderr := stdout + report.stdout, stderr + report.stderr;
      if report.conclusion == Failure && !steps[i].continueOnError {
        return Ok((Failure, stdout, stderr));
      }
      i := i + 1;
    }
    return Ok((Success, stdout, stderr));
  }

  /** The main loop of RunJob. */
  method RunMainSteps(o: Oracle, actions: Actions, actx: JobContext, shared: JobShared, steps: seq<Step>)
    returns (r: Result<(Conclusion, seq<Report>, seq<Post>), StepError>)
    modifies actx, shared
    ensures match RunTop(TopRunner(o, actions), Begin(old(Snapshot(actx, shared))), steps, 0)
            case Ok(p) => r == Ok((p.conclusion, p.reports, p.posts)) && Snapshot(actx, shared) == p.st
            case Err(e) => r == Err(e)
  {
    ghost var run := TopRunner(o, actions);
    ghost var end := RunTop(run, Begin(Snapshot(actx, shared)), steps, 0);
    var reports: seq<Report>, posts: seq<Post> := [], [];
    var i := 0;
    while i < |steps|
      invariant 0 <= i <= |steps|
      invariant end == RunTop(run, Progress(Snapshot(actx, shared), reports, posts, Success), steps, i)
    {
      ghost var p := Progress(Snapshot(actx, shared), reports, posts, Success);
      var s := RunStepIn(o, actions, 0, actx, shared, steps[i], StepId(steps[i], i));
      if s.Err? {
        return Err(s.error);
      }
      var (report, post) := s.value;
      TopTurn(run, p, steps, i, Stepped(Snapshot(actx, shared), report, post));
      reports := reports + [report];
      posts := posts + (if post.Some? then [post.value] else []);
      if report.conclusion == Failure && !steps[i].continueOnError {
        return Ok((Failure, reports, posts));
      }
      i := i + 1;
    }
    return Ok((Success, reports, posts));
  }

  /** One turn of the post loop. */
  method RunPostIn(o: JobOracle, actx: JobContext, shared: JobShared, post: Post, reports: seq<Report>)
    returns (r: Result<seq<Report>, JobError>)
    modifies actx, shared
    ensures match RunOnePost(o, PostProgress(old(Snapshot(actx, shared)), reports), post)
            case Ok(p) => r == Ok(p.reports) && Snapshot(actx, shared) == p.st
            case Err(e) => r == Err(e)
  {
    if post.postIf != "" {
      var run := o.steps.evalBool(post.postIf, actx.Value());
      if run.Err? {
        return Err(PostIfFailed(post.stepId));
      }
      if !run.value {
        return Ok(reports);
      }
    }
    var e := o.execPost(shared.clock, post, actx.env + post.env);
    shared.clock := shared.clock + 1;
    if e.Err? {
      return Err(PostFailed(post.stepId));
    }
    actx.env := actx.env + e.value.envUpdates;
    return Ok(reports + [PostReport(post, e.value)]);
  }

  method RunPostActions(o: JobOracle, actx: JobContext, shared: JobShared, posts: seq<Post>, main: seq<Report>)
    returns (r: Result<seq<Report>, JobError>)
    modifies actx, shared
    ensures match RunPosts(o, PostProgress(old(Snapshot(actx, shared)), main), posts)
            case Ok(p) => r == Ok(p.reports) && Snapshot(actx, shared) == p.st
            case Err(e) => r == Err(e)
  {
    ghost var start := PostProgress(Snapshot(actx, shared), main);
    var reports := main;
    var i := |posts|;
    assert posts[..i] == posts;
    while i > 0
      invariant 0 <= i <= |posts|
      invariant RunPosts(o, start, posts) == RunPosts(o, PostProgress(Snapshot(actx, shared), reports), posts[..i])
    {
      assert posts[..i][..i - 1] == posts[..i - 1];
      i := i - 1;
      var one := RunPostIn(o, actx, shared, posts[i], reports);
      if one.Err? {
        return Err(one.error);
      }
      reports := one.value;
    }
    return Ok(reports);
  }

  method RunJobIn(o: JobOracle, actions: Actions, ctx: Ctx, steps: seq<Step>, outputExprs: map<string, string>)
    returns (r: Result<JobResult, JobError>)
    ensures r == RunJob(o, actions, ctx, steps, outputExprs)
  {
    var actx := new JobContext(ctx);
    var shared := new JobShared();
    var top := RunMainSteps(o.steps, actions, actx, shared, steps);
    if top.Err? {
      return Err(StepFailed(top.error));
    }
    var (conclusion, main, posts) := top.value;
    var all := RunPostActions(o, actx, shared, posts, main);
    if all.Err? {
      return Err(all.error);
    }
    var outputs := EvalOutputs(o.steps, outputExprs, actx.Value());
    if outputs.None? {
      return Err(JobOutputFailed);
    }
    return Ok(JobResult(conclusion, all.value, outputs.value));
  }
}
