/**
  RunJob: the step loop, the post loop and the job's result, as functions of the job's state
  (internal/engine/executor.go).
 */
module Jobs {
  import opened Outcomes
  import opened Text
  import opened Steps
  import Redaction

  datatype JobOracle = JobOracle(steps: Oracle, execPost: (nat, Post, Env) -> Result<ExecResult, string>)

  datatype JobError = StepFailed(e: StepError) | PostIfFailed(id: string) | PostFailed(id: string) | JobOutputFailed

  datatype Progress = Progress(st: State, reports: seq<Report>, posts: seq<Post>, conclusion: Conclusion)

  datatype JobResult = JobResult(conclusion: Conclusion, reports: seq<Report>, outputs: Env)

  /** The report stops the job: a failure that continue-on-error does not cover. */
  predicate Fatal(report: Report, step: Step) {
    report.conclusion == Failure && !step.continueOnError
  }

  /** One turn of the step loop: the report is appended, and a post action registered if there is one. */
  function Advance(p: Progress, s: Stepped): Progress {
    Progress(s.st, p.reports + [s.report], p.posts + (if s.post.Some? then [s.post.value] else []), p.conclusion)
  }

  /** How a job's own steps run. */
  function TopRunner(o: Oracle, actions: Actions): StepRunner {
    NestedRunner(o, actions, 0)
  }

  function RunTop(run: StepRunner, p: Progress, steps: seq<Step>, i: nat): Result<Progress, StepError>
    requires i <= |steps|
    decreases |steps| - i
  {
    if i == |steps| then Ok(p)
    else
      var r := run(p.st, steps[i], StepId(steps[i], i));
      if r.Err? then Err(r.error)
      else
        var p' := Advance(p, r.value);
        if Fatal(r.value.report, steps[i]) then Ok(p'.(conclusion := Failure)) else RunTop(run, p', steps, i + 1)
  }

  function Begin(st: State): Progress {
    Progress(st, [], [], Success)
  }

  datatype PostProgress = PostProgress(st: State, reports: seq<Report>)

  /** What a post action reports: its output as it is, not redacted. */
  function PostReport(post: Post, r: ExecResult): Report {
    Report(post.stepId + "-post", Verdict(r.exitCode), r.exitCode, r.stdout, r.stderr)
  }

  /** A post action's env: the job's, what the action's main entry point saw, and the state it saved. */
  function RunOnePost(o: JobOracle, p: PostProgress, post: Post): Result<PostProgress, JobError> {
    if post.postIf != "" && o.steps.evalBool(post.postIf, p.st.ctx).Err? then Err(PostIfFailed(post.stepId))
    else if post.postIf != "" && !o.steps.evalBool(post.postIf, p.st.ctx).value then Ok(p)
    else
      var r := o.execPost(p.st.clock, post, p.st.ctx.env + post.env);
      if r.Err? then Err(PostFailed(post.stepId))
      else
        Ok(PostProgress(
          State(p.st.ctx.(env := p.st.ctx.env + r.value.envUpdates), p.st.masks, p.st.clock + 1),
          p.reports + [PostReport(post, r.value)]))
  }

  /** From the last registered post action back to the first. */
  function RunPosts(o: JobOracle, p: PostProgress, posts: seq<Post>): Result<PostProgress, JobError>
    decreases |posts|
  {
    if posts == [] then Ok(p)
    else
      var last := |posts| - 1;
      var r := RunOnePost(o, p, posts[last]);
      if r.Err? then r else RunPosts(o, r.value, posts[..last])
  }

  function RunJob(o: JobOracle, actions: Actions, ctx: Ctx, steps: seq<Step>, outputs: map<string, string>)
    : Result<JobResult, JobError>
  {
    var top := RunTop(TopRunner(o.steps, actions), Begin(State(ctx, [], 0)), steps, 0);
    if top.Err? then Err(StepFailed(top.error))
    else
      var posted := RunPosts(o, PostProgress(top.value.st, top.value.reports), top.value.posts);
      if posted.Err? then Err(posted.error)
      else
        var vals := EvalOutputs(o.steps, outputs, posted.value.st.ctx);
        if vals.None? then Err(JobOutputFailed)
        else Ok(JobResult(top.value.conclusion, posted.value.reports, vals.value))
  }

  // ----- the step loop -----

  /** The state in which step k takes its turn, if every step before it came back. */
  function StateBefore(run: StepRunner, st: State, steps: seq<Step>, k: nat): State
    requires k <= |steps|
    decreases k
  {
    if k == 0 then st
    else
      var before := StateBefore(run, st, steps, k - 1);
      var r := run(before, steps[k - 1], StepId(steps[k - 1], k - 1));
      if r.Ok? then r.value.st else before
  }

  /** What step k comes to at its turn. */
  function StepAt(run: StepRunner, st: State, steps: seq<Step>, k: nat): Result<Stepped, StepError>
    requires k < |steps|
  {
    run(StateBefore(run, st, steps, k), steps[k], StepId(steps[k], k))
  }

  /** Report j is that of step j at its turn. */
  predicate RanInTurn(run: StepRunner, st: State, steps: seq<Step>, reports: seq<Report>) {
    |reports| <= |steps| &&
    forall j :: 0 <= j < |reports| ==>
      StepAt(run, st, steps, j).Ok? && StepAt(run, st, steps, j).value.report == reports[j]
  }

  /** Only the last report can be fatal, and the reports stop short of the last step only if it is. */
  predicate StopsAtFirstFatal(steps: seq<Step>, reports: seq<Report>, conclusion: Conclusion) {
    && |reports| <= |steps|
    && (forall j :: 0 <= j < |reports| - 1 ==> !Fatal(reports[j], steps[j]))
    && (conclusion == Failure <==> |reports| > 0 && Fatal(reports[|reports| - 1], steps[|reports| - 1]))
    && (conclusion == Success || conclusion == Failure)
    && (|reports| < |steps| ==> conclusion == Failure)
  }

  /** Step n, at its turn, handed over a post action. */
  predicate HandsOverPost(run: StepRunner, st: State, steps: seq<Step>, n: nat)
    requires n < |steps|
  {
    StepAt(run, st, steps, n).Ok? && StepAt(run, st, steps, n).value.post.Some?
  }

  /** Post i is the one step reg[i] handed over, in step order. */
  ghost predicate RegisteredBy(run: StepRunner, st: State, steps: seq<Step>, m: nat, posts: seq<Post>, reg: seq<nat>)
    requires m <= |steps|
  {
    && |reg| == |posts|
    && (forall i, j :: 0 <= i < j < |reg| ==> reg[i] < reg[j])
    && (forall i :: 0 <= i < |reg| ==>
          reg[i] < m && StepAt(run, st, steps, reg[i]).Ok? &&
            StepAt(run, st, steps, reg[i]).value.post == Some(posts[i]))
  }

  /** reg leaves out no step before m that handed over a post action. */
  ghost predicate ListsRegistering(run: StepRunner, st: State, steps: seq<Step>, m: nat, reg: seq<nat>)
    requires m <= |steps|
  {
    forall n: nat {:trigger HandsOverPost(run, st, steps, n)} ::
      n < m ==> (n in reg <==> HandsOverPost(run, st, steps, n))
  }

  /**
    What the loop keeps: the reports so far are in turn, none is fatal, and reg lists the steps that
    registered posts.
   */
  ghost predicate LoopInv(run: StepRunner, st: State, steps: seq<Step>, p: Progress, reg: seq<nat>) {
    && RanInTurn(run, st, steps, p.reports) && p.conclusion == Success
    && p.st == StateBefore(run, st, steps, |p.reports|)
    && (forall j :: 0 <= j < |p.reports| ==> !Fatal(p.reports[j], steps[j]))
    && RegisteredBy(run, st, steps, |p.reports|, p.posts, reg)
    && ListsRegistering(run, st, steps, |p.reports|, reg)
  }

  function NextReg(s: Stepped, reg: seq<nat>, i: nat): seq<nat> {
    if s.post.Some? then reg + [i] else reg
  }

  lemma RegisterNext(run: StepRunner, st: State, steps: seq<Step>, m: nat, posts: seq<Post>, post: Post, reg: seq<nat>)
    requires m < |steps| && RegisteredBy(run, st, steps, m, posts, reg)
    requires StepAt(run, st, steps, m).Ok? && StepAt(run, st, steps, m).value.post == Some(post)
    ensures RegisteredBy(run, st, steps, m + 1, posts + [post], reg + [m])
  {
    var posts', reg' := posts + [post], reg + [m];
    forall i | 0 <= i < |reg'|
      ensures reg'[i] < m + 1 && StepAt(run, st, steps, reg'[i]).Ok?
      ensures StepAt(run, st, steps, reg'[i]).value.post == Some(posts'[i])
    {
      if i < |reg| {
        assert reg'[i] == reg[i] && posts'[i] == posts[i];
      }
    }
  }

  lemma AdvanceRegisters(run: StepRunner, st: State, steps: seq<Step>, p: Progress, s: Stepped, reg: seq<nat>)
    requires |p.reports| < |steps| && StepAt(run, st, steps, |p.reports|) == Ok(s)
    requires RegisteredBy(run, st, steps, |p.reports|, p.posts, reg)
    ensures RegisteredBy(run, st, steps, |p.reports| + 1, Advance(p, s).posts, NextReg(s, reg, |p.reports|))
  {
    if s.post.Some? {
      RegisterNext(run, st, steps, |p.reports|, p.posts, s.post.value, reg);
    } else {
      assert Advance(p, s).posts == p.posts;
    }
  }

  lemma AdvanceLists(run: StepRunner, st: State, steps: seq<Step>, i: nat, s: Stepped, reg: seq<nat>)
    requires i < |steps| && StepAt(run, st, steps, i) == Ok(s)
    requires ListsRegistering(run, st, steps, i, reg) && forall j :: 0 <= j < |reg| ==> reg[j] < i
    ensures ListsRegistering(run, st, steps, i + 1, NextReg(s, reg, i))
  {
    forall n: nat | n < i + 1 ensures n in NextReg(s, reg, i) <==> HandsOverPost(run, st, steps, n) {
      assert n < i ==> (n in reg <==> HandsOverPost(run, st, steps, n));
      assert i !in reg;
    }
  }

  lemma AdvanceInTurn(run: StepRunner, st: State, steps: seq<Step>, p: Progress, s: Stepped)
    requires RanInTurn(run, st, steps, p.reports) && p.st == StateBefore(run, st, steps, |p.reports|)
    requires |p.reports| < |steps| && StepAt(run, st, steps, |p.reports|) == Ok(s)
    ensures RanInTurn(run, st, steps, Advance(p, s).reports)
    ensures Advance(p, s).st == StateBefore(run, st, steps, |p.reports| + 1)
  {
  }

  lemma TopTurn(run: StepRunner, p: Progress, steps: seq<Step>, i: nat, s: Stepped)
    requires i < |steps| && run(p.st, steps[i], StepId(steps[i], i)) == Ok(s)
    ensures RunTop(run, p, steps, i) ==
              if Fatal(s.report, steps[i]) then Ok(Advance(p, s).(conclusion := Failure))
              else RunTop(run, Advance(p, s), steps, i + 1)
  {
  }

  lemma {:induction false} LoopShape(run: StepRunner, st: State, steps: seq<Step>, p: Progress, reg: seq<nat>)
    returns (reg': seq<nat>)
    requires LoopInv(run, st, steps, p, reg) && RunTop(run, p, steps, |p.reports|).Ok?
    ensures Shape(run, st, steps, RunTop(run, p, steps, |p.reports|).value, reg')
    decreases |steps| - |p.reports|
  {
    var i := |p.reports|;
    if i == |steps| {
      reg' := reg;
    } else {
      var s := run(p.st, steps[i], StepId(steps[i], i)).value;
      TopTurn(run, p, steps, i, s);
      LoopTurn(run, st, steps, p, s, reg);
      reg' := NextReg(s, reg, i);
      if !Fatal(s.report, steps[i]) {
        reg' := LoopShape(run, st, steps, Advance(p, s), reg');
      }
    }
  }

  lemma LoopTurn(run: StepRunner, st: State, steps: seq<Step>, p: Progress, s: Stepped, reg: seq<nat>)
    requires LoopInv(run, st, steps, p, reg) && |p.reports| < |steps| && StepAt(run, st, steps, |p.reports|) == Ok(s)
    ensures if Fatal(s.report, steps[|p.reports|])
            then Shape(run, st, steps, Advance(p, s).(conclusion := Failure), NextReg(s, reg, |p.reports|))
            else LoopInv(run, st, steps, Advance(p, s), NextReg(s, reg, |p.reports|))
  {
    AdvanceInTurn(run, st, steps, p, s);
    AdvanceRegisters(run, st, steps, p, s, reg);
    AdvanceLists(run, st, steps, |p.reports|, s, reg);
    NotFatalYet(steps, p, s);
  }

  lemma NotFatalYet(steps: seq<Step>, p: Progress, s: Stepped)
    requires |p.reports| < |steps| && forall j :: 0 <= j < |p.reports| ==> !Fatal(p.reports[j], steps[j])
    ensures if Fatal(s.report, steps[|p.reports|]) then StopsAtFirstFatal(steps, Advance(p, s).reports, Failure)
            else forall j :: 0 <= j < |Advance(p, s).reports| ==> !Fatal(Advance(p, s).reports[j], steps[j])
  {
  }

  /** What the loop leaves behind: reports, state and posts are fixed by the steps' own results at their turns. */
  ghost predicate Shape(run: StepRunner, st: State, steps: seq<Step>, p: Progress, reg: seq<nat>) {
    && RanInTurn(run, st, steps, p.reports)
    && p.st == StateBefore(run, st, steps, |p.reports|)
    && StopsAtFirstFatal(steps, p.reports, p.conclusion)
    && RegisteredBy(run, st, steps, |p.reports|, p.posts, reg)
    && ListsRegistering(run, st, steps, |p.reports|, reg)
  }

  /**
    The loop reports, in turn, the steps of a prefix ending at the first fatal report, or all
    steps, and registers exactly the post actions those steps handed over.
   */
  lemma RunTopShape(run: StepRunner, st: State, steps: seq<Step>) returns (reg: seq<nat>)
    requires RunTop(run, Begin(st), steps, 0).Ok?
    ensures Shape(run, st, steps, RunTop(run, Begin(st), steps, 0).value, reg)
  {
    reg := LoopShape(run, st, steps, Begin(st), []);
  }

  // ----- the post loop runs backwards and drops only what post-if drops -----

  /** Whether the post action runs, seen from the context of its turn. */
  predicate PostRuns(o: Oracle, post: Post, ctx: Ctx) {
    post.postIf == "" || o.evalBool(post.postIf, ctx) == Ok(true)
  }

  /**
    The reports added are those of the posts at idx: strictly descending positions, so last in first
    out and each at most once.
   */
  ghost predicate Backwards(posts: seq<Post>, added: seq<Report>, idx: seq<nat>) {
    && |added| == |idx|
    && (forall i, j :: 0 <= i < j < |idx| ==> idx[j] < idx[i])
    && (forall i :: 0 <= i < |idx| ==> idx[i] < |posts| && added[i].id == posts[idx[i]].stepId + "-post")
  }

  /** idx lists exactly the posts whose post-if held at their turn; ctxs are the contexts of the turns. */
  ghost predicate ListsRuns(o: Oracle, posts: seq<Post>, idx: seq<nat>, ctxs: seq<Ctx>) {
    |ctxs| == |posts| && forall n: nat {:trigger PostRuns(o, posts[n], ctxs[n])} ::
      n < |posts| ==> (n in idx <==> PostRuns(o, posts[n], ctxs[n]))
  }

  lemma BackwardsFirst(posts: seq<Post>, added: seq<Report>, idx: seq<nat>, report: Report)
    requires posts != [] && Backwards(posts[..|posts| - 1], added, idx)
    requires report.id == posts[|posts| - 1].stepId + "-post"
    ensures Backwards(posts, added, idx) && Backwards(posts, [report] + added, [|posts| - 1] + idx)
  {
  }

  lemma RunsFirst(o: Oracle, posts: seq<Post>, idx: seq<nat>, ctxs: seq<Ctx>, ctx: Ctx)
    requires posts != [] && ListsRuns(o, posts[..|posts| - 1], idx, ctxs)
    requires forall i :: 0 <= i < |idx| ==> idx[i] < |posts| - 1
    ensures var last := |posts| - 1;
            ListsRuns(o, posts, if PostRuns(o, posts[last], ctx) then [last] + idx else idx, ctxs + [ctx])
  {
    var last := |posts| - 1;
    forall n: nat | n < last ensures n in idx <==> PostRuns(o, posts[n], (ctxs + [ctx])[n]) {
      assert posts[..last][n] == posts[n];
    }
  }

  /** The last registered post takes its turn before the others. */
  lemma PostsFirstTurn(o: Oracle, posts: seq<Post>, added: seq<Report>, idx: seq<nat>, ctxs: seq<Ctx>, ctx: Ctx,
                       report: Report)
    returns (idx': seq<nat>)
    requires posts != [] && Backwards(posts[..|posts| - 1], added, idx) && ListsRuns(o, posts[..|posts| - 1], idx, ctxs)
    requires report.id == posts[|posts| - 1].stepId + "-post"
    ensures Backwards(posts, (if PostRuns(o, posts[|posts| - 1], ctx) then [report] else []) + added, idx')
    ensures ListsRuns(o, posts, idx', ctxs + [ctx])
  {
    BackwardsFirst(posts, added, idx, report);
    RunsFirst(o, posts, idx, ctxs, ctx);
    assert [] + added == added;
    idx' := if PostRuns(o, posts[|posts| - 1], ctx) then [|posts| - 1] + idx else idx;
  }

  lemma OnePost(o: JobOracle, p: PostProgress, post: Post) returns (report: Report)
    requires RunOnePost(o, p, post).Ok?
    ensures var r := RunOnePost(o, p, post).value;
            && r.st.ctx.steps == p.st.ctx.steps && report.id == post.stepId + "-post"
            && r.reports == p.reports + (if PostRuns(o.steps, post, p.st.ctx) then [report] else [])
  {
    var r := RunOnePost(o, p, post).value;
    report := if PostRuns(o.steps, post, p.st.ctx) then r.reports[|p.reports|]
              else Report(post.stepId + "-post", Skipped, 0, "", "");
  }

  /** The contexts in which the posts take their turns, the last registered first. */
  function TurnCtxs(o: JobOracle, p: PostProgress, posts: seq<Post>): (r: seq<Ctx>)
    requires RunPosts(o, p, posts).Ok?
    ensures |r| == |posts|
    decreases |posts|
  {
    if posts == [] then []
    else
      var last := |posts| - 1;
      TurnCtxs(o, RunOnePost(o, p, posts[last]).value, posts[..last]) + [p.st.ctx]
  }

  /** The post reports, backwards; a post is left out iff its post-if is false in the context of its turn. */
  lemma {:induction false} PostsRunBackwards(o: JobOracle, p: PostProgress, posts: seq<Post>)
    returns (added: seq<Report>, idx: seq<nat>)
    requires RunPosts(o, p, posts).Ok?
    ensures RunPosts(o, p, posts).value.reports == p.reports + added
    ensures Backwards(posts, added, idx) && ListsRuns(o.steps, posts, idx, TurnCtxs(o, p, posts))
    decreases |posts|
  {
    if posts == [] {
      added, idx := [], [];
    } else {
      var p', report := PostTurn(o, p, posts);
      var added', idx' := PostsRunBackwards(o, p', posts[..|posts| - 1]);
      added, idx := PrependPost(o.steps, p, p', posts, added', idx', TurnCtxs(o, p', posts[..|posts| - 1]), report);
    }
  }

  lemma PrependPost(o: Oracle, p: PostProgress, p': PostProgress, posts: seq<Post>, added': seq<Report>, idx': seq<nat>,
                    ctxs: seq<Ctx>, report: Report)
    returns (added: seq<Report>, idx: seq<nat>)
    requires posts != [] && Backwards(posts[..|posts| - 1], added', idx') &&
             ListsRuns(o, posts[..|posts| - 1], idx', ctxs)
    requires report.id == posts[|posts| - 1].stepId + "-post"
    requires p'.reports == p.reports + (if PostRuns(o, posts[|posts| - 1], p.st.ctx) then [report] else [])
    ensures p'.reports + added' == p.reports + added
    ensures Backwards(posts, added, idx) && ListsRuns(o, posts, idx, ctxs + [p.st.ctx])
  {
    idx := PostsFirstTurn(o, posts, added', idx', ctxs, p.st.ctx, report);
    added := (if PostRuns(o, posts[|posts| - 1], p.st.ctx) then [report] else []) + added';
  }

  lemma PostTurn(o: JobOracle, p: PostProgress, posts: seq<Post>) returns (p': PostProgress, report: Report)
    requires posts != [] && RunPosts(o, p, posts).Ok?
    ensures RunPosts(o, p', posts[..|posts| - 1]) == RunPosts(o, p, posts)
    ensures TurnCtxs(o, p, posts) == TurnCtxs(o, p', posts[..|posts| - 1]) + [p.st.ctx]
    ensures report.id == posts[|posts| - 1].stepId + "-post"
    ensures p'.reports == p.reports + (if PostRuns(o.steps, posts[|posts| - 1], p.st.ctx) then [report] else [])
  {
    report := OnePost(o, p, posts[|posts| - 1]);
    p' := RunOnePost(o, p, posts[|posts| - 1]).value;
  }

  // ----- the whole job -----

  lemma TopStepRecorded(o: Oracle, actions: Actions, st: State, steps: seq<Step>, k: nat)
    requires k < |steps| && StepAt(TopRunner(o, actions), st, steps, k).Ok?
    ensures var before := StateBefore(TopRunner(o, actions), st, steps, k);
            Recorded(actions, before, steps[k], StepAt(TopRunner(o, actions), st, steps, k).value, StepId(steps[k], k))
  {
    StepIsolated(o, actions, 0, StateBefore(TopRunner(o, actions), st, steps, k), steps[k], StepId(steps[k], k));
  }

  /** Which of the steps that ran registered a post action, told from the steps and their reports alone. */
  ghost predicate RegisterExactly(actions: Actions, steps: seq<Step>, main: seq<Report>, posts: seq<Post>,
                                  reg: seq<nat>)
  {
    && |reg| == |posts| && |main| <= |steps|
    && (forall i, j :: 0 <= i < j < |reg| ==> reg[i] < reg[j])
    && (forall i :: 0 <= i < |reg| ==>
          && reg[i] < |main| && HasPost(actions, steps[reg[i]])
          && posts[i].stepId == main[reg[i]].id && posts[i].postIf == actions[steps[reg[i]].uses].post.value)
    && (forall n: nat {:trigger Registers(actions, steps[n], main[n])} ::
          n < |main| ==> (n in reg <==> Registers(actions, steps[n], main[n])))
  }

  lemma ShapeRegisters(o: Oracle, actions: Actions, st: State, steps: seq<Step>, p: Progress, reg: seq<nat>)
    requires Shape(TopRunner(o, actions), st, steps, p, reg)
    ensures forall j :: 0 <= j < |p.reports| ==> p.reports[j].id == StepId(steps[j], j)
    ensures RegisterExactly(actions, steps, p.reports, p.posts, reg)
  {
    var run := TopRunner(o, actions);
    forall j | 0 <= j < |p.reports|
      ensures p.reports[j].id == StepId(steps[j], j)
      ensures j in reg <==> Registers(actions, steps[j], p.reports[j])
    {
      TopStepRecorded(o, actions, st, steps, j);
      assert j in reg <==> HandsOverPost(run, st, steps, j);
    }
    forall i | 0 <= i < |reg|
      ensures HasPost(actions, steps[reg[i]]) && p.posts[i].stepId == p.reports[reg[i]].id
      ensures p.posts[i].postIf == actions[steps[reg[i]].uses].post.value
    {
      TopStepRecorded(o, actions, st, steps, reg[i]);
    }
  }

  /**
    RunJob's reports: those of the steps up to the first fatal one, then those of the post actions,
    backwards. A post action is registered by every step that was not skipped and uses an action
    with a post entry point, and by no other; it reports once, or not at all if its post-if is
    false in the context of its turn. The conclusion is that of the steps: no post outcome enters it.
   */
  lemma JobReports(o: JobOracle, actions: Actions, ctx: Ctx, steps: seq<Step>, outputs: map<string, string>)
    returns (top: Progress, reg: seq<nat>, added: seq<Report>, idx: seq<nat>)
    requires RunJob(o, actions, ctx, steps, outputs).Ok?
    ensures var r := RunJob(o, actions, ctx, steps, outputs).value;
            var start := PostProgress(top.st, top.reports);
            && RunTop(TopRunner(o.steps, actions), Begin(State(ctx, [], 0)), steps, 0) == Ok(top)
            && r.reports == top.reports + added && r.conclusion == top.conclusion
            && RanInTurn(TopRunner(o.steps, actions), State(ctx, [], 0), steps, top.reports)
            && top.st == StateBefore(TopRunner(o.steps, actions), State(ctx, [], 0), steps, |top.reports|)
            && StopsAtFirstFatal(steps, top.reports, r.conclusion)
            && RegisterExactly(actions, steps, top.reports, top.posts, reg)
            && Backwards(top.posts, added, idx)
            && RunPosts(o, start, top.posts).Ok? && ListsRuns(o.steps, top.posts, idx, TurnCtxs(o, start, top.posts))
  {
    var st := State(ctx, [], 0);
    reg := RunTopShape(TopRunner(o.steps, actions), st, steps);
    top := RunTop(TopRunner(o.steps, actions), Begin(st), steps, 0).value;
    ShapeRegisters(o.steps, actions, st, steps, top, reg);
    added, idx := PostsRunBackwards(o, PostProgress(top.st, top.reports), top.posts);
  }

  // ----- secrets over a whole job -----

  /** Step i came back and kept the masks it found. */
  predicate KeepsMasks(run: StepRunner, st: State, steps: seq<Step>, i: nat)
    requires i < |steps|
  {
    && StepAt(run, st, steps, i).Ok?
    && StateBefore(run, st, steps, i).masks <= StepAt(run, st, steps, i).value.st.masks
  }

  lemma {:induction false} MasksGrow(run: StepRunner, st: State, steps: seq<Step>, j: nat, k: nat)
    requires j <= k < |steps| && forall i: nat :: j <= i <= k ==> KeepsMasks(run, st, steps, i)
    ensures StepAt(run, st, steps, j).Ok? && StepAt(run, st, steps, k).Ok?
    ensures StepAt(run, st, steps, j).value.st.masks <= StepAt(run, st, steps, k).value.st.masks
    decreases k - j
  {
    assert KeepsMasks(run, st, steps, k);
    if j < k {
      MasksGrow(run, st, steps, j, k - 1);
      assert StateBefore(run, st, steps, k) == StepAt(run, st, steps, k - 1).value.st;
    }
  }

  /**
    Every report of a directly executed step is free of each safe mask registered up to and
    including that step, by whichever step j, composite or not, registered it.
   */
  lemma JobReportsRedacted(o: Oracle, actions: Actions, st: State, steps: seq<Step>, j: nat, k: nat, v: string)
    requires RunTop(TopRunner(o, actions), Begin(st), steps, 0).Ok?
    requires j <= k < |RunTop(TopRunner(o, actions), Begin(st), steps, 0).value.reports| <= |steps|
    requires !IsComposite(actions, steps[k]) && v != "" && Redaction.StarSafe(v)
    requires StepAt(TopRunner(o, actions), st, steps, j).Ok?
    requires v in StepAt(TopRunner(o, actions), st, steps, j).value.st.masks
    ensures var report := RunTop(TopRunner(o, actions), Begin(st), steps, 0).value.reports[k];
            !Contains(report.stdout, v) && !Contains(report.stderr, v)
  {
    var reg := RunTopShape(TopRunner(o, actions), st, steps);
    forall i: nat | j <= i <= k ensures KeepsMasks(TopRunner(o, actions), st, steps, i) {
      TopStepRecorded(o, actions, st, steps, i);
    }
    MasksGrow(TopRunner(o, actions), st, steps, j, k);
    ReportRedacted(o, actions, 0, StateBefore(TopRunner(o, actions), st, steps, k), steps[k], StepId(steps[k], k), v);
  }
}
