/**
  How a step runs: runStep and the composite recursion, as functions of the job's state
  (internal/engine/executor.go, internal/engine/composite_step.go).

  Expression evaluation, action metadata and the backend are the oracle. The oracle may answer each
  execution differently: it is told how many came before.
 */
module Steps {
  import opened Outcomes
  import opened Text
  import Commands
  import Redaction

  const MAX_DEPTH: nat := 10

  type Env = map<string, string>

  datatype Step = Step(id: string, run: string, uses: string, cond: string, continueOnError: bool, env: Env)

  datatype Action =
    | Direct(post: Option<string>)   // node or docker; the post-if of a node action's post entry point
    | Composite(steps: seq<Step>, outputs: map<string, string>)

  type Actions = map<string, Action>   // what each uses: reference resolves to

  datatype StepOutcome = StepOutcome(outcome: Conclusion, outputs: Env)

  /** The part of the expression context that steps change or that a composite replaces. */
  datatype Ctx = Ctx(env: Env, steps: map<string, StepOutcome>, secrets: Env)

  datatype ExecResult = ExecResult(
    exitCode: int, stdout: string, stderr: string,
    fileOutputs: Env, legacyOutputs: Env, envUpdates: Env)

  datatype Oracle = Oracle(
    evalBool: (string, Ctx) -> Result<bool, string>,
    subst: (string, Ctx) -> Result<string, string>,
    prepare: (Step, Ctx) -> Result<Env, string>,            // the INPUT_* environment of a uses: step
    exec: (nat, Step, string, Env) -> Result<ExecResult, string>)

  datatype Report = Report(id: string, conclusion: Conclusion, exitCode: int, stdout: string, stderr: string)

  datatype Post = Post(stepId: string, postIf: string, env: Env)

  datatype State = State(ctx: Ctx, masks: seq<string>, clock: nat)

  datatype StepError =
    | BothRunAndUses(id: string) | CondFailed(id: string) | PrepareFailed(id: string) | SubstFailed(id: string)
    | ExecFailed(id: string) | OutputFailed | TooDeep

  datatype Stepped = Stepped(st: State, report: Report, post: Option<Post>)

  /** How one step runs: a function of the state, the step and its id. */
  type StepRunner = (State, Step, string) -> Result<Stepped, StepError>

  datatype Nested = Nested(st: State, conclusion: Conclusion, stdout: string, stderr: string)

  function StepId(step: Step, i: nat): string {
    if step.id == "" then "step-" + Decimal(i) else step.id
  }

  function ShowDebug(env: Env): bool {
    "ACTIONS_STEP_DEBUG" in env && env["ACTIONS_STEP_DEBUG"] == "true"
  }

  function Verdict(exitCode: int): Conclusion {
    if exitCode == 0 then Success else Failure
  }

  /** The state after a directly executed step came back with r. */
  function AfterExec(st: State, id: string, r: ExecResult): State {
    var env := st.ctx.env + r.envUpdates;
    State(
      st.ctx.(
        env := env,
        steps := st.ctx.steps[id := StepOutcome(Verdict(r.exitCode), r.legacyOutputs + r.fileOutputs)]),
      st.masks + Commands.Masks(r.stdout) + Commands.Masks(r.stderr),
      st.clock + 1)
  }

  /** What a directly executed step reports, once its masks are registered. */
  function ExecReport(st': State, id: string, r: ExecResult): Report {
    var debug := ShowDebug(st'.ctx.env);
    Report(id, Verdict(r.exitCode), r.exitCode,
      Redaction.Redact(Commands.Display(r.stdout, debug), st'.masks),
      Redaction.Redact(Commands.Display(r.stderr, debug), st'.masks))
  }

  predicate IsComposite(actions: Actions, step: Step) {
    step.uses != "" && step.uses in actions && actions[step.uses].Composite?
  }

  function SkippedStep(st: State, id: string): Stepped {
    var steps := st.ctx.steps[id := StepOutcome(Skipped, map[])];
    Stepped(st.(ctx := st.ctx.(steps := steps)), Report(id, Skipped, 0, "", ""), None)
  }

  /** The env and the command a step starts from, or why it cannot start. */
  function Prepare(o: Oracle, actions: Actions, ctx: Ctx, step: Step, id: string): Result<(Env, string), StepError> {
    if step.uses != "" then
      var r := o.prepare(step, ctx);
      if r.Err? || step.uses !in actions then Err(PrepareFailed(id)) else Ok((r.value, ""))
    else
      var r := o.subst(step.run, ctx);
      if r.Err? then Err(SubstFailed(id)) else Ok((map[], r.value))
  }

  function RunStep(o: Oracle, actions: Actions, depth: nat, st: State, step: Step, id: string)
    : Result<Stepped, StepError>
    requires depth <= MAX_DEPTH
    decreases MAX_DEPTH - depth, 1, 0
  {
    if step.run != "" && step.uses != "" then Err(BothRunAndUses(id))
    else if step.cond != "" && o.evalBool(step.cond, st.ctx).Err? then Err(CondFailed(id))
    else if step.cond != "" && !o.evalBool(step.cond, st.ctx).value then Ok(SkippedStep(st, id))
    else
      var start := Prepare(o, actions, st.ctx, step, id);
      if start.Err? then Err(start.error)
      else if IsComposite(actions, step) then
        var action := actions[step.uses];
        AfterComposite(st, id, RunComposite(o, actions, depth, st, action.steps, action.outputs, start.value.0))
      else
        RunDirect(o, actions, st, step, id, start.value.0, start.value.1)
  }

  /** The calling step takes the composite's conclusion, outputs and output text; the caller keeps its own context. */
  function AfterComposite(st: State, id: string, c: Result<(Nested, Env), StepError>): Result<Stepped, StepError> {
    match c
    case Err(e) => Err(e)
    case Ok((n, outputs)) =>
      Ok(Stepped(
        State(st.ctx.(steps := st.ctx.steps[id := StepOutcome(n.conclusion, outputs)]), n.st.masks, n.st.clock),
        Report(id, n.conclusion, 0, n.stdout, n.stderr), None))
  }

  /** The step uses a node action with a post entry point. */
  predicate HasPost(actions: Actions, step: Step) {
    step.uses != "" && step.uses in actions && actions[step.uses].Direct? && actions[step.uses].post.Some?
  }

  /** A node action with a post entry point registers it, with the env its main entry point saw. */
  function PostOf(actions: Actions, step: Step, id: string, inputs: Env): Option<Post> {
    if HasPost(actions, step) then Some(Post(id, actions[step.uses].post.value, inputs)) else None
  }

  function RunDirect(o: Oracle, actions: Actions, st: State, step: Step, id: string, inputs: Env, command: string)
    : Result<Stepped, StepError>
  {
    var r := o.exec(st.clock, step, command, st.ctx.env + step.env + inputs);
    if r.Err? then Err(ExecFailed(id))
    else
      var st' := AfterExec(st, id, r.value);
      Ok(Stepped(st', ExecReport(st', id, r.value), PostOf(actions, step, id, inputs)))
  }

  /** A composite's steps see the caller's env and its own inputs, no caller steps, and no secrets. */
  function ChildCtx(parent: Ctx, baseEnv: Env): Ctx {
    Ctx(parent.env + baseEnv, map[], map[])
  }

  /** Every declared output expression, evaluated; None if one of them fails. */
  function EvalOutputs(o: Oracle, exprs: map<string, string>, ctx: Ctx): Option<Env> {
    if exists n :: n in exprs && o.subst(exprs[n], ctx).Err? then None
    else Some(map n | n in exprs :: o.subst(exprs[n], ctx).value)
  }

  function WithOutputs(o: Oracle, exprs: map<string, string>, n: Nested): Result<(Nested, Env), StepError> {
    var outputs := EvalOutputs(o, exprs, n.st.ctx);
    if outputs.None? then Err(OutputFailed) else Ok((n, outputs.value))
  }

  function RunComposite(o: Oracle, actions: Actions, depth: nat, st: State, steps: seq<Step>,
                        outputs: map<string, string>, baseEnv: Env)
    : Result<(Nested, Env), StepError>
    requires depth <= MAX_DEPTH
    decreases MAX_DEPTH - depth, 0, 0
  {
    if depth + 1 > MAX_DEPTH then Err(TooDeep)
    else
      var inside := Nested(st.(ctx := ChildCtx(st.ctx, baseEnv)), Success, "", "");
      var r := RunNested(o, actions, depth + 1, inside, steps, 0);
      if r.Err? then Err(r.error) else WithOutputs(o, outputs, r.value)
  }

  function RunNested(o: Oracle, actions: Actions, depth: nat, n: Nested, steps: seq<Step>, i: nat)
    : Result<Nested, StepError>
    requires depth <= MAX_DEPTH && i <= |steps|
    decreases MAX_DEPTH - depth, 2, |steps| - i
  {
    if i == |steps| then Ok(n)
    else
      var r := RunStep(o, actions, depth, n.st, steps[i], StepId(steps[i], i));
      if r.Err? then Err(r.error)
      else
        var report := r.value.report;
        var n' := Nested(r.value.st, n.conclusion, n.stdout + report.stdout, n.stderr + report.stderr);
        if report.conclusion == Failure && !steps[i].continueOnError then Ok(n'.(conclusion := Failure))
        else RunNested(o, actions, depth, n', steps, i + 1)
  }

  /** How a step at this depth of nesting runs. */
  function NestedRunner(o: Oracle, actions: Actions, depth: nat): StepRunner
    requires depth <= MAX_DEPTH
  {
    (st, step, id) => RunStep(o, actions, depth, st, step, id)
  }

  /** What a nested step adds to its composite. */
  function Append(n: Nested, s: Stepped): Nested {
    Nested(s.st, n.conclusion, n.stdout + s.report.stdout, n.stderr + s.report.stderr)
  }

  /** One turn of the nested loop. */
  lemma NestedTurn(o: Oracle, actions: Actions, depth: nat, n: Nested, steps: seq<Step>, i: nat)
    requires depth <= MAX_DEPTH && i < |steps|
    ensures var r := RunStep(o, actions, depth, n.st, steps[i], StepId(steps[i], i));
            RunNested(o, actions, depth, n, steps, i) ==
              if r.Err? then Err(r.error)
              else if r.value.report.conclusion == Failure && !steps[i].continueOnError
              then Ok(Append(n, r.value).(conclusion := Failure))
              else RunNested(o, actions, depth, Append(n, r.value), steps, i + 1)
  {
  }

  // ----- isolation -----

  /** A step writes only its own entry of Steps, never the secrets, and only adds masks. */
  predicate StepFrame(st: State, st': State, id: string) {
    && id in st'.ctx.steps && st'.ctx.steps == st.ctx.steps[id := st'.ctx.steps[id]]
    && st'.ctx.secrets == st.ctx.secrets
    && st.masks <= st'.masks
    && st.clock <= st'.clock
  }

  /** The step was not skipped and its action has a post entry point. */
  predicate Registers(actions: Actions, step: Step, report: Report) {
    report.conclusion != Skipped && HasPost(actions, step)
  }

  /** What every step's result has in common. */
  predicate Recorded(actions: Actions, st: State, step: Step, r: Stepped, id: string) {
    && StepFrame(st, r.st, id)
    && r.report.id == id && r.st.ctx.steps[id].outcome == r.report.conclusion
    && (r.post.Some? <==> Registers(actions, step, r.report))
    && (r.post.Some? ==> r.post.value.stepId == id && r.post.value.postIf == actions[step.uses].post.value)
  }

  lemma DirectRecorded(o: Oracle, actions: Actions, st: State, step: Step, id: string, inputs: Env, command: string)
    requires RunDirect(o, actions, st, step, id, inputs, command).Ok?
    ensures Recorded(actions, st, step, RunDirect(o, actions, st, step, id, inputs, command).value, id)
    ensures RunDirect(o, actions, st, step, id, inputs, command).value.report.conclusion != Skipped
  {
  }

  lemma CompositeRecorded(actions: Actions, st: State, step: Step, id: string, c: Result<(Nested, Env), StepError>)
    requires IsComposite(actions, step)
    requires c.Ok? && st.masks <= c.value.0.st.masks && st.clock <= c.value.0.st.clock
    ensures var r := AfterComposite(st, id, c).value;
            Recorded(actions, st, step, r, id) && r.st.ctx.env == st.ctx.env && r.post == None
  {
  }

  /** What a step leaves unchanged; a composite or skipped step leaves the caller's env unchanged too. */
  lemma {:induction false} StepIsolated(o: Oracle, actions: Actions, depth: nat, st: State, step: Step, id: string)
    requires depth <= MAX_DEPTH && RunStep(o, actions, depth, st, step, id).Ok?
    ensures var r := RunStep(o, actions, depth, st, step, id).value;
            && Recorded(actions, st, step, r, id)
            && (IsComposite(actions, step) || r.report.conclusion == Skipped ==>
              r.st.ctx.env == st.ctx.env && r.post == None)
    decreases MAX_DEPTH - depth, 1, 0
  {
    var r := RunStep(o, actions, depth, st, step, id).value;
    if r != SkippedStep(st, id) {
      var start := Prepare(o, actions, st.ctx, step, id);
      if IsComposite(actions, step) {
        var action := actions[step.uses];
        CompositeGrows(o, actions, depth, st, action.steps, action.outputs, start.value.0);
        var c := RunComposite(o, actions, depth, st, action.steps, action.outputs, start.value.0);
        CompositeRecorded(actions, st, step, id, c);
      } else {
        DirectRecorded(o, actions, st, step, id, start.value.0, start.value.1);
      }
    }
  }

  lemma {:induction false} CompositeGrows(o: Oracle, actions: Actions, depth: nat, st: State, steps: seq<Step>,
                                          outputs: map<string, string>, baseEnv: Env)
    requires depth <= MAX_DEPTH && RunComposite(o, actions, depth, st, steps, outputs, baseEnv).Ok?
    ensures var n := RunComposite(o, actions, depth, st, steps, outputs, baseEnv).value.0;
            st.masks <= n.st.masks && st.clock <= n.st.clock
    decreases MAX_DEPTH - depth, 0, 0
  {
    NestedGrows(o, actions, depth + 1, Nested(st.(ctx := ChildCtx(st.ctx, baseEnv)), Success, "", ""), steps, 0);
  }

  lemma {:induction false} NestedGrows(o: Oracle, actions: Actions, depth: nat, n: Nested, steps: seq<Step>, i: nat)
    requires depth <= MAX_DEPTH && i <= |steps| && RunNested(o, actions, depth, n, steps, i).Ok?
    ensures var n' := RunNested(o, actions, depth, n, steps, i).value;
            n.st.masks <= n'.st.masks && n.st.clock <= n'.st.clock
    decreases MAX_DEPTH - depth, 2, |steps| - i
  {
    if i < |steps| {
      StepIsolated(o, actions, depth, n.st, steps[i], StepId(steps[i], i));
      var r := RunStep(o, actions, depth, n.st, steps[i], StepId(steps[i], i)).value;
      var n' := Nested(r.st, n.conclusion, n.stdout + r.report.stdout, n.stderr + r.report.stderr);
      if !(r.report.conclusion == Failure && !steps[i].continueOnError) {
        NestedGrows(o, actions, depth, n', steps, i + 1);
      }
    }
  }

  // ----- the depth cap -----

  /** Composite actions nested in one another: each step after the first stands in the action the one before it uses. */
  predicate IsChain(actions: Actions, chain: seq<Step>) {
    && (forall i :: 0 <= i < |chain| ==> IsComposite(actions, chain[i]))
    && (forall i :: 0 <= i < |chain| - 1 ==> chain[i + 1] in actions[chain[i].uses].steps)
  }

  /** The cap is reached only through a chain of composites longer than the remaining depth. */
  lemma {:induction false} TooDeepMeansChain(o: Oracle, actions: Actions, depth: nat, st: State, step: Step, id: string)
    returns (chain: seq<Step>)
    requires depth <= MAX_DEPTH && RunStep(o, actions, depth, st, step, id) == Err(TooDeep)
    ensures |chain| == MAX_DEPTH - depth + 1 && chain[0] == step && IsChain(actions, chain)
    decreases MAX_DEPTH - depth, 1, 0
  {
    var child := TooDeepInside(o, actions, depth, st, step, id);
    chain := [step];
    if depth < MAX_DEPTH {
      var rest := NestedTooDeep(o, actions, depth + 1, child, actions[step.uses].steps, 0);
      LongerChain(actions, step, rest);
      chain := [step] + rest;
    }
  }

  lemma TooDeepInside(o: Oracle, actions: Actions, depth: nat, st: State, step: Step, id: string)
    returns (child: Nested)
    requires depth <= MAX_DEPTH && RunStep(o, actions, depth, st, step, id) == Err(TooDeep)
    ensures IsComposite(actions, step)
    ensures depth < MAX_DEPTH ==> RunNested(o, actions, depth + 1, child, actions[step.uses].steps, 0) == Err(TooDeep)
  {
    var start := Prepare(o, actions, st.ctx, step, id);
    assert start.Ok? && IsComposite(actions, step);
    child := Nested(st.(ctx := ChildCtx(st.ctx, start.value.0)), Success, "", "");
  }

  lemma LongerChain(actions: Actions, step: Step, rest: seq<Step>)
    requires IsComposite(actions, step) && rest != [] && rest[0] in actions[step.uses].steps && IsChain(actions, rest)
    ensures IsChain(actions, [step] + rest)
  {
    var chain := [step] + rest;
    forall i | 0 <= i < |chain| - 1 ensures chain[i + 1] in actions[chain[i].uses].steps {
      if i > 0 {
        assert chain[i] == rest[i - 1] && chain[i + 1] == rest[i];
      }
    }
  }

  lemma {:induction false} NestedTooDeep(o: Oracle, actions: Actions, depth: nat, n: Nested, steps: seq<Step>, i: nat)
    returns (chain: seq<Step>)
    requires depth <= MAX_DEPTH && i <= |steps| && RunNested(o, actions, depth, n, steps, i) == Err(TooDeep)
    ensures |chain| == MAX_DEPTH - depth + 1 && chain[0] in steps && IsChain(actions, chain)
    decreases MAX_DEPTH - depth, 2, |steps| - i
  {
    var r := RunStep(o, actions, depth, n.st, steps[i], StepId(steps[i], i));
    if r.Err? {
      chain := TooDeepMeansChain(o, actions, depth, n.st, steps[i], StepId(steps[i], i));
    } else {
      var n' := Nested(r.value.st, n.conclusion, n.stdout + r.value.report.stdout, n.stderr + r.value.report.stderr);
      chain := NestedTooDeep(o, actions, depth, n', steps, i + 1);
    }
  }

  /** A job whose actions nest at most ten deep never meets the cap. */
  lemma ShallowNeverTooDeep(o: Oracle, actions: Actions, st: State, step: Step, id: string)
    requires forall chain :: IsChain(actions, chain) && |chain| > 10 ==> chain[0] != step
    ensures RunStep(o, actions, 0, st, step, id) != Err(TooDeep)
  {
    if RunStep(o, actions, 0, st, step, id) == Err(TooDeep) {
      var chain := TooDeepMeansChain(o, actions, 0, st, step, id);
    }
  }

  /** Composites nested one in another, each the first step of the one before it and unconditional. */
  predicate IsFirstChain(actions: Actions, chain: seq<Step>) {
    && (forall i :: 0 <= i < |chain| ==> IsComposite(actions, chain[i]) && chain[i].run == "" && chain[i].cond == "")
    && (forall i :: 0 <= i < |chain| - 1 ==>
      actions[chain[i].uses].steps != [] && chain[i + 1] == actions[chain[i].uses].steps[0])
  }

  /** Eleven composites nested one in another are too deep. */
  lemma {:induction false} ElevenTooDeep(o: Oracle, actions: Actions, depth: nat, st: State, chain: seq<Step>,
                                         id: string)
    requires depth <= MAX_DEPTH && |chain| == 11 - depth && IsFirstChain(actions, chain)
    requires forall s, ctx :: o.prepare(s, ctx).Ok?
    ensures RunStep(o, actions, depth, st, chain[0], id) == Err(TooDeep)
    decreases MAX_DEPTH - depth
  {
    var step := chain[0];
    var start := Prepare(o, actions, st.ctx, step, id);
    if depth < MAX_DEPTH {
      var steps := actions[step.uses].steps;
      var child := Nested(st.(ctx := ChildCtx(st.ctx, start.value.0)), Success, "", "");
      ElevenTooDeep(o, actions, depth + 1, child.st, chain[1..], StepId(steps[0], 0));
      NestedFirst(o, actions, depth + 1, child, steps);
    }
  }

  /** The step uses a composite of the set, whatever the context. */
  predicate UsesAmong(actions: Actions, step: Step, cycle: set<string>) {
    step.run == "" && step.cond == "" && step.uses != "" && step.uses in cycle && step.uses in actions
  }

  /** Composites that use one another: the first step of each unconditionally uses one of them. */
  predicate IsCycle(actions: Actions, cycle: set<string>) {
    forall u :: u in cycle && u in actions ==>
      actions[u].Composite? && actions[u].steps != [] && UsesAmong(actions, actions[u].steps[0], cycle)
  }

  /**
    A step that unconditionally uses a composite on such a cycle, itself included, ends in an error,
    not in endless recursion; in the depth error, unless preparing a step fails first.
   */
  lemma {:induction false} CycleIsCut(o: Oracle, actions: Actions, cycle: set<string>, depth: nat, st: State,
                                      step: Step, id: string)
    requires depth <= MAX_DEPTH && IsCycle(actions, cycle) && UsesAmong(actions, step, cycle)
    ensures var r := RunStep(o, actions, depth, st, step, id); r.Err? && (r.error.TooDeep? || r.error.PrepareFailed?)
    ensures (forall s, ctx :: o.prepare(s, ctx).Ok?) ==> RunStep(o, actions, depth, st, step, id) == Err(TooDeep)
    decreases MAX_DEPTH - depth
  {
    var start := Prepare(o, actions, st.ctx, step, id);
    if depth < MAX_DEPTH && start.Ok? {
      var steps := actions[step.uses].steps;
      var child := Nested(st.(ctx := ChildCtx(st.ctx, start.value.0)), Success, "", "");
      CycleIsCut(o, actions, cycle, depth + 1, child.st, steps[0], StepId(steps[0], 0));
      NestedFirst(o, actions, depth + 1, child, steps);
    }
  }

  lemma NestedFirst(o: Oracle, actions: Actions, depth: nat, n: Nested, steps: seq<Step>)
    requires depth <= MAX_DEPTH && steps != []
    requires RunStep(o, actions, depth, n.st, steps[0], StepId(steps[0], 0)).Err?
    ensures RunNested(o, actions, depth, n, steps, 0)
              == Err(RunStep(o, actions, depth, n.st, steps[0], StepId(steps[0], 0)).error)
  {
  }

  // ----- redaction -----

  /** Redaction covers every mask registered by the time the report is made, this execution's own included. */
  lemma DirectRedacted(o: Oracle, actions: Actions, st: State, step: Step, id: string, inputs: Env, command: string,
                       v: string)
    requires RunDirect(o, actions, st, step, id, inputs, command).Ok?
    requires v != "" && Redaction.StarSafe(v) &&
             v in RunDirect(o, actions, st, step, id, inputs, command).value.st.masks
    ensures var report := RunDirect(o, actions, st, step, id, inputs, command).value.report;
            !Contains(report.stdout, v) && !Contains(report.stderr, v)
  {
    var e := o.exec(st.clock, step, command, st.ctx.env + step.env + inputs).value;
    var st' := AfterExec(st, id, e);
    var debug := ShowDebug(st'.ctx.env);
    Redaction.RedactedIsGone(Commands.Display(e.stdout, debug), st'.masks, v);
    Redaction.RedactedIsGone(Commands.Display(e.stderr, debug), st'.masks, v);
  }

  /** A directly executed step's report holds none of the safe masks registered up to and including that step. */
  lemma ReportRedacted(o: Oracle, actions: Actions, depth: nat, st: State, step: Step, id: string, v: string)
    requires depth <= MAX_DEPTH && !IsComposite(actions, step) && RunStep(o, actions, depth, st, step, id).Ok?
    requires v != "" && Redaction.StarSafe(v) && v in RunStep(o, actions, depth, st, step, id).value.st.masks
    ensures var report := RunStep(o, actions, depth, st, step, id).value.report;
            !Contains(report.stdout, v) && !Contains(report.stderr, v)
  {
    var r := RunStep(o, actions, depth, st, step, id).value;
    if r != SkippedStep(st, id) {
      var start := Prepare(o, actions, st.ctx, step, id);
      DirectRedacted(o, actions, st, step, id, start.value.0, start.value.1, v);
    }
  }

  /**
    A value that a step registers by an ::add-mask:: line on stdout or stderr is already absent from
    that step's own report.
   */
  lemma RegisteredSecretHidden(o: Oracle, actions: Actions, st: State, step: Step, id: string, inputs: Env,
                               command: string, v: string)
    requires v != "" && Redaction.StarSafe(v)
    requires var e := o.exec(st.clock, step, command, st.ctx.env + step.env + inputs);
             e.Ok? && (Commands.ADD_MASK + v in Split(e.value.stdout, '\n') ||
               Commands.ADD_MASK + v in Split(e.value.stderr, '\n'))
    ensures var r := RunDirect(o, actions, st, step, id, inputs, command);
            r.Ok? && v in r.value.st.masks && !Contains(r.value.report.stdout, v) && !Contains(r.value.report.stderr, v)
  {
    var e := o.exec(st.clock, step, command, st.ctx.env + step.env + inputs).value;
    Commands.MasksAre(e.stdout, v);
    Commands.MasksAre(e.stderr, v);
    assert v in AfterExec(st, id, e).masks;
    DirectRedacted(o, actions, st, step, id, inputs, command, v);
  }
}
