/**
  RunWorkflow over the job graph: skip propagation, one pool per job, result assembly, and the
  exit code cmd/mirror derives from it.

  What happens inside a job is given by a plan: the pool's configuration and the interleaving its
  goroutines go through. Quantifying over plans quantifies over everything RunJob may do.
 */
module Workflow {
  import opened Outcomes
  import opened Text
  import opened JobGraph
  import Pool
  import PoolSafety

  datatype Plan =
    | Undecodable                                               // ExpandMatrix or the concurrency field failed
    // requested: strategy.max-parallel, 0 if absent
    | Plan(requested: int, cfg: Pool.Config, schedule: seq<Pool.Event>)

  datatype JobReport = JobReport(conclusion: Conclusion, combos: seq<Pool.Outcome>)

  datatype WorkflowError = NoWorkspace | BadGraph(e: Error) | JobError(name: string)

  datatype WorkflowResult = WorkflowResult(jobs: map<string, JobReport>, order: seq<string>)

  /** The schedule runs the pool to the point where wg.Wait returns. */
  predicate ValidPlan(plan: Plan) {
    plan.Plan? ==>
      && Pool.ValidConfig(plan.cfg)
      && plan.cfg.maxParallel == Pool.EffectiveParallel(plan.requested, plan.cfg.n)
      && Pool.CanRun(plan.cfg, Pool.Init(plan.cfg), plan.schedule)
      && Pool.AllFinished(Pool.Run(plan.cfg, Pool.Init(plan.cfg), plan.schedule))
  }

  predicate ValidPlans(jobs: Jobs, plans: map<string, Plan>) {
    forall n :: n in jobs ==> n in plans && ValidPlan(plans[n])
  }

  // ----- one job -----

  predicate NeedsSucceeded(jobs: Jobs, reports: map<string, JobReport>, name: string)
    requires name in jobs
  {
    forall d :: d in jobs[name] ==> d in reports && reports[d].conclusion == Success
  }

  function PoolEnd(plan: Plan): Pool.State
    requires plan.Plan? && ValidPlan(plan)
  {
    Pool.Run(plan.cfg, Pool.Init(plan.cfg), plan.schedule)
  }

  function RunPool(name: string, plan: Plan): Result<JobReport, WorkflowError>
    requires ValidPlan(plan)
  {
    if plan.Undecodable? || PoolEnd(plan).firstErr then Err(JobError(name))
    else
      var results := PoolEnd(plan).results;
      Ok(JobReport(if PoolSafety.AnyFailed(results) then Failure else Success, results))
  }

  function RunOne(jobs: Jobs, plans: map<string, Plan>, reports: map<string, JobReport>, name: string)
    : Result<JobReport, WorkflowError>
    requires name in jobs && ValidPlans(jobs, plans)
  {
    if NeedsSucceeded(jobs, reports, name) then RunPool(name, plans[name])
    else Ok(JobReport(Conclusion.Skipped, []))
  }

  function RunJobs(jobs: Jobs, plans: map<string, Plan>, reports: map<string, JobReport>, order: seq<string>)
    : Result<map<string, JobReport>, WorkflowError>
    requires ValidPlans(jobs, plans) && forall n :: n in order ==> n in jobs
    decreases order
  {
    if order == [] then Ok(reports)
    else
      var r := RunOne(jobs, plans, reports, order[0]);
      if r.Err? then Err(r.error)
      else RunJobs(jobs, plans, reports[order[0] := r.value], order[1..])
  }

  /** The whole of RunWorkflow, given how ranging over the job map happened to list its keys. */
  function WholeRun(jobs: Jobs, plans: map<string, Plan>, listing: seq<string>): Result<WorkflowResult, WorkflowError>
    requires ValidPlans(jobs, plans) && Lists(listing, jobs.Keys)
  {
    TopoSortCorrect(jobs, listing);
    var sorted := TopoSort(jobs, listing);
    if sorted.Err? then Err(BadGraph(sorted.error))
    else
      var r := RunJobs(jobs, plans, map[], sorted.value.order);
      if r.Err? then Err(r.error) else Ok(WorkflowResult(r.value, sorted.value.order))
  }

  // ----- the loops of the source -----

  method AnyNeedUnsuccessful(needs: seq<string>, outcomes: map<string, Conclusion>) returns (skip: bool)
    ensures skip <==> exists d :: d in needs && !(d in outcomes && outcomes[d] == Success)
  {
    skip := false;
    for i := 0 to |needs|
      invariant forall j :: 0 <= j < i ==> needs[j] in outcomes && outcomes[needs[j]] == Success
    {
      if needs[i] !in outcomes || outcomes[needs[i]] != Success {
        return true;
      }
    }
  }

  method Conclude(results: seq<Pool.Outcome>) returns (c: Conclusion)
    ensures c == if PoolSafety.AnyFailed(results) then Failure else Success
  {
    c := Success;
    for i := 0 to |results|
      invariant c == if exists j :: 0 <= j < i && results[j] == Pool.Ran(Pool.Failed) then Failure else Success
    {
      if results[i] == Pool.Ran(Pool.Failed) {
        c := Failure;
      }
    }
  }

  method RunPoolIn(name: string, plan: Plan) returns (r: Result<JobReport, WorkflowError>)
    requires ValidPlan(plan)
    ensures r == RunPool(name, plan)
  {
    if plan.Undecodable? {
      return Err(JobError(name));
    }
    var end := Pool.Run(plan.cfg, Pool.Init(plan.cfg), plan.schedule);
    if end.firstErr {
      return Err(JobError(name));
    }
    var conclusion := Conclude(end.results);
    return Ok(JobReport(conclusion, end.results));
  }

  method RunInOrder(jobs: Jobs, plans: map<string, Plan>, order: seq<string>)
    returns (r: Result<map<string, JobReport>, WorkflowError>)
    requires ValidPlans(jobs, plans) && forall n :: n in order ==> n in jobs
    ensures r == RunJobs(jobs, plans, map[], order)
  {
    var outcomes: map<string, Conclusion> := map[];
    var reports: map<string, JobReport> := map[];
    var i := 0;
    while i < |order|
      invariant 0 <= i <= |order|
      invariant outcomes.Keys == reports.Keys && forall n :: n in reports ==> outcomes[n] == reports[n].conclusion
      invariant RunJobs(jobs, plans, map[], order) == RunJobs(jobs, plans, reports, order[i..])
    {
      var name := order[i];
      RunJobsTurn(jobs, plans, reports, order, i);
      var skip := AnyNeedUnsuccessful(jobs[name], outcomes);
      if skip {
        reports := reports[name := JobReport(Conclusion.Skipped, [])];
        outcomes := outcomes[name := Conclusion.Skipped];
      } else {
        var ran := RunPoolIn(name, plans[name]);
        if ran.Err? {
          return Err(ran.error);
        }
        reports := reports[name := ran.value];
        outcomes := outcomes[name := ran.value.conclusion];
      }
      i := i + 1;
    }
    return Ok(reports);
  }

  method RunWorkflow(jobs: Jobs, plans: map<string, Plan>, workspaceDir: string)
    returns (r: Result<WorkflowResult, WorkflowError>)
    requires ValidPlans(jobs, plans)
    ensures workspaceDir == "" ==> r == Err(NoWorkspace)
    ensures workspaceDir != "" ==> forall listing :: Lists(listing, jobs.Keys) ==> r == WholeRun(jobs, plans, listing)
    ensures workspaceDir != "" ==> (r.Err? && r.error.BadGraph? <==> !AllNeedsKnown(jobs) || HasCycle(jobs))
    ensures r.Ok? ==> Lists(r.value.order, jobs.Keys) && NeedsEarlier(jobs, r.value.order)
    ensures r.Ok? ==> RunJobs(jobs, plans, map[], r.value.order) == Ok(r.value.jobs)
  {
    if workspaceDir == "" {
      return Err(NoWorkspace);
    }
    var sorted := TopoSortJobs(jobs);
    if sorted.Err? {
      return Err(BadGraph(sorted.error));
    }
    var ran := RunInOrder(jobs, plans, sorted.value);
    if ran.Err? {
      RunJobsErrors(jobs, plans, map[], sorted.value);
      return Err(ran.error);
    }
    return Ok(WorkflowResult(ran.value, sorted.value));
  }

  lemma {:induction false} RunJobsErrors(jobs: Jobs, plans: map<string, Plan>, reports: map<string, JobReport>,
                                         order: seq<string>)
    requires ValidPlans(jobs, plans) && forall n :: n in order ==> n in jobs
    ensures var r := RunJobs(jobs, plans, reports, order); r.Err? ==> r.error.JobError? && r.error.name in order
    decreases order
  {
    if order != [] {
      var one := RunOne(jobs, plans, reports, order[0]);
      if one.Ok? {
        RunJobsErrors(jobs, plans, reports[order[0] := one.value], order[1..]);
      }
    }
  }

  // ----- what the reports say -----

  /** The report of n follows from the final reports of its needs alone. */
  predicate Settled(jobs: Jobs, plans: map<string, Plan>, reports: map<string, JobReport>, n: string)
    requires ValidPlans(jobs, plans)
  {
    n in jobs && n in reports && RunOne(jobs, plans, reports, n) == Ok(reports[n])
  }

  ghost predicate RunsSoFar(jobs: Jobs, plans: map<string, Plan>, reports: map<string, JobReport>)
    requires ValidPlans(jobs, plans)
  {
    forall n :: n in reports ==> Settled(jobs, plans, reports, n) && forall d :: d in jobs[n] ==> d in reports
  }

  /** A job's report is unmoved by a later job's, because all its needs came before. */
  lemma LaterReportIrrelevant(jobs: Jobs, plans: map<string, Plan>, reports: map<string, JobReport>, n: string,
                              report: JobReport, m: string)
    requires ValidPlans(jobs, plans) && m in jobs && n !in reports
    requires forall d :: d in jobs[m] ==> d in reports
    ensures RunOne(jobs, plans, reports[n := report], m) == RunOne(jobs, plans, reports, m)
  {
    assert NeedsSucceeded(jobs, reports[n := report], m) <==> NeedsSucceeded(jobs, reports, m);
  }

  lemma ReportKeepsSettled(jobs: Jobs, plans: map<string, Plan>, reports: map<string, JobReport>, n: string,
                           report: JobReport)
    requires ValidPlans(jobs, plans) && RunsSoFar(jobs, plans, reports) && n in jobs && n !in reports
    requires RunOne(jobs, plans, reports, n) == Ok(report) && forall d :: d in jobs[n] ==> d in reports
    ensures RunsSoFar(jobs, plans, reports[n := report])
  {
    var reports' := reports[n := report];
    forall m | m in reports' ensures Settled(jobs, plans, reports', m) && forall d :: d in jobs[m] ==> d in reports' {
      if m != n {
        assert Settled(jobs, plans, reports, m);
      }
      LaterReportIrrelevant(jobs, plans, reports, n, report, m);
    }
  }

  lemma {:induction false} RunJobsSettles(jobs: Jobs, plans: map<string, Plan>, reports: map<string, JobReport>,
                                          order: seq<string>, i: nat)
    requires ValidPlans(jobs, plans) && Lists(order, jobs.Keys) && NeedsEarlier(jobs, order) && i <= |order|
    requires RunsSoFar(jobs, plans, reports) && forall n :: n in reports <==> n in order[..i]
    ensures var r := RunJobs(jobs, plans, reports, order[i..]);
            r.Ok? ==> r.value.Keys == jobs.Keys && RunsSoFar(jobs, plans, r.value)
    decreases |order| - i
  {
    if i == |order| {
      assert order[..i] == order;
    } else {
      var n := order[i];
      assert n in order;
      RunJobsTurn(jobs, plans, reports, order, i);
      var one := RunOne(jobs, plans, reports, n);
      if one.Ok? {
        NextInOrder(jobs, order, i);
        ReportKeepsSettled(jobs, plans, reports, n, one.value);
        RunJobsSettles(jobs, plans, reports[n := one.value], order, i + 1);
      }
    }
  }

  lemma NextInOrder(jobs: Jobs, order: seq<string>, i: nat)
    requires Distinct(order) && NeedsEarlier(jobs, order) && i < |order| && order[i] in jobs
    ensures order[i] !in order[..i] && order[..i + 1] == order[..i] + [order[i]]
    ensures forall d :: d in jobs[order[i]] ==> d in order[..i]
  {
  }

  lemma RunJobsTurn(jobs: Jobs, plans: map<string, Plan>, reports: map<string, JobReport>, order: seq<string>, i: nat)
    requires ValidPlans(jobs, plans) && (forall n :: n in order ==> n in jobs) && i < |order|
    ensures var one := RunOne(jobs, plans, reports, order[i]);
            RunJobs(jobs, plans, reports, order[i..]) ==
              if one.Err? then Err(one.error) else RunJobs(jobs, plans, reports[order[i] := one.value], order[i + 1..])
  {
    assert order[i..][0] == order[i] && order[i..][1..] == order[i + 1..];
  }

  /** m is reached from n by following needs, at least one of them. */
  ghost predicate TransitiveNeed(jobs: Jobs, n: string, m: string) {
    exists p :: NeedsPath(jobs, p, n, m)
  }

  predicate NeedsPath(jobs: Jobs, p: seq<string>, n: string, m: string) {
    |p| >= 2 && IsPath(jobs, p) && p[0] == n && p[|p| - 1] == m
  }

  ghost predicate SomeTransitiveNeedFailed(jobs: Jobs, reports: map<string, JobReport>, n: string) {
    exists m :: TransitiveNeed(jobs, n, m) && m in reports && reports[m].conclusion == Failure
  }

  lemma DirectNeed(jobs: Jobs, n: string, d: string)
    requires n in jobs && d in jobs[n]
    ensures TransitiveNeed(jobs, n, d)
  {
    assert NeedsPath(jobs, [n, d], n, d);
  }

  lemma FurtherNeed(jobs: Jobs, n: string, d: string, m: string)
    requires n in jobs && d in jobs[n] && TransitiveNeed(jobs, d, m)
    ensures TransitiveNeed(jobs, n, m)
  {
    var p :| NeedsPath(jobs, p, d, m);
    var q := [n] + p;
    assert forall i :: 0 < i < |q| ==> q[i] == p[i - 1];
    assert NeedsPath(jobs, q, n, m);
  }

  lemma FirstNeed(jobs: Jobs, n: string, m: string) returns (d: string)
    requires TransitiveNeed(jobs, n, m)
    ensures n in jobs && d in jobs[n] && (d == m || TransitiveNeed(jobs, d, m))
  {
    var p :| NeedsPath(jobs, p, n, m);
    d := p[1];
    if |p| > 2 {
      assert NeedsPath(jobs, p[1..], d, m);
    }
  }

  lemma {:induction false} SkippedIffNeedFailed(jobs: Jobs, plans: map<string, Plan>, reports: map<string, JobReport>,
                                                order: seq<string>, j: nat)
    requires ValidPlans(jobs, plans) && NeedsEarlier(jobs, order) && j < |order| && order[j] in jobs
    requires RunsSoFar(jobs, plans, reports) && reports.Keys == jobs.Keys
    ensures reports[order[j]].conclusion == Conclusion.Skipped <==> SomeTransitiveNeedFailed(jobs, reports, order[j])
    decreases j
  {
    var n := order[j];
    assert Settled(jobs, plans, reports, n);
    if reports[n].conclusion == Conclusion.Skipped {
      var d :| d in jobs[n] && reports[d].conclusion != Success;
      DirectNeed(jobs, n, d);
      if reports[d].conclusion == Conclusion.Skipped {
        assert d in order[..j];
        var k :| 0 <= k < j && order[k] == d;
        SkippedIffNeedFailed(jobs, plans, reports, order, k);
        var m :| TransitiveNeed(jobs, d, m) && m in reports && reports[m].conclusion == Failure;
        FurtherNeed(jobs, n, d, m);
      }
    } else if SomeTransitiveNeedFailed(jobs, reports, n) {
      var m :| TransitiveNeed(jobs, n, m) && m in reports && reports[m].conclusion == Failure;
      var d := FirstNeed(jobs, n, m);
      assert reports[d].conclusion == Success;
      assert d in order[..j];
      var k :| 0 <= k < j && order[k] == d;
      SkippedIffNeedFailed(jobs, plans, reports, order, k);
      assert false;
    }
  }

  /**
    When RunWorkflow returns no error, every job has a report; a job is skipped iff some transitive
    need concluded failure, and otherwise its pool ran; it concludes success iff it was not skipped
    and every one of its combinations ran and succeeded.
   */
  lemma WorkflowSound(jobs: Jobs, plans: map<string, Plan>, order: seq<string>, n: string)
    requires ValidPlans(jobs, plans) && Lists(order, jobs.Keys) && NeedsEarlier(jobs, order) && n in jobs
    requires RunJobs(jobs, plans, map[], order).Ok?
    ensures var reports := RunJobs(jobs, plans, map[], order).value;
            && reports.Keys == jobs.Keys
            && (reports[n].conclusion == Conclusion.Skipped <==> SomeTransitiveNeedFailed(jobs, reports, n))
            && (reports[n].conclusion == Conclusion.Skipped <==> reports[n] == JobReport(Conclusion.Skipped, []))
            && (reports[n].conclusion != Conclusion.Skipped ==>
                  && plans[n].Plan? && reports[n].combos == PoolEnd(plans[n]).results
                  && forall m :: TransitiveNeed(jobs, n, m) ==> m in reports && reports[m].conclusion == Success)
            && (reports[n].conclusion == Success <==>
                  reports[n].conclusion != Conclusion.Skipped && forall i :: 0 <= i < |reports[n].combos| ==>
                    reports[n].combos[i] == Pool.Ran(Pool.Succeeded))
  {
    assert order[0..] == order;
    RunJobsSettles(jobs, plans, map[], order, 0);
    var reports := RunJobs(jobs, plans, map[], order).value;
    assert n in order;
    var j :| 0 <= j < |order| && order[j] == n;
    SkippedIffNeedFailed(jobs, plans, reports, order, j);
    assert Settled(jobs, plans, reports, n);
    if reports[n].conclusion != Conclusion.Skipped {
      PoolSafety.NoFailureMeansAllRan(plans[n].cfg, plans[n].schedule);
      forall m | TransitiveNeed(jobs, n, m) ensures m in reports && reports[m].conclusion == Success {
        NeedsOfExecuted(jobs, plans, reports, order, j, m);
      }
    }
  }

  /** An executed job's transitive needs all succeeded. */
  lemma {:induction false} NeedsOfExecuted(jobs: Jobs, plans: map<string, Plan>, reports: map<string, JobReport>,
                                           order: seq<string>, j: nat, m: string)
    requires ValidPlans(jobs, plans) && NeedsEarlier(jobs, order) && j < |order| && order[j] in jobs
    requires RunsSoFar(jobs, plans, reports) && reports.Keys == jobs.Keys
    requires reports[order[j]].conclusion != Conclusion.Skipped && TransitiveNeed(jobs, order[j], m)
    ensures m in reports && reports[m].conclusion == Success
    decreases j
  {
    var n := order[j];
    assert Settled(jobs, plans, reports, n);
    var d := FirstNeed(jobs, n, m);
    if d != m {
      assert d in order[..j];
      var k :| 0 <= k < j && order[k] == d;
      NeedsOfExecuted(jobs, plans, reports, order, k, m);
    }
  }

  // ----- when a workflow stops with an error -----

  /** The job cannot be started, or one of its combinations came to an error rather than a verdict. */
  predicate Breaks(plan: Plan)
    requires ValidPlan(plan)
  {
    plan.Undecodable? ||
    exists i :: 0 <= i < |PoolEnd(plan).results| && PoolEnd(plan).results[i] == Pool.Ran(Pool.Errored)
  }

  lemma RunPoolErrorIff(name: string, plan: Plan)
    requires ValidPlan(plan)
    ensures RunPool(name, plan) == Err(JobError(name)) <==> Breaks(plan)
    ensures RunPool(name, plan).Ok? <==> !Breaks(plan)
  {
    if plan.Plan? {
      Pool.InitInv(plan.cfg);
      Pool.RunKeepsInv(plan.cfg, Pool.Init(plan.cfg), plan.schedule);
    }
  }

  /** The needs of the job all succeeded in the run of the jobs before it. */
  predicate Due(jobs: Jobs, plans: map<string, Plan>, order: seq<string>, j: nat)
    requires ValidPlans(jobs, plans) && (forall n :: n in order ==> n in jobs) && j < |order|
  {
    var before := RunJobs(jobs, plans, map[], order[..j]);
    before.Ok? && NeedsSucceeded(jobs, before.value, order[j])
  }

  lemma {:induction false} RunJobsConcat(jobs: Jobs, plans: map<string, Plan>, reports: map<string, JobReport>,
                                         a: seq<string>, b: seq<string>)
    requires ValidPlans(jobs, plans) && forall n :: n in a + b ==> n in jobs
    requires (forall n :: n in a ==> n in jobs) && forall n :: n in b ==> n in jobs
    ensures var first := RunJobs(jobs, plans, reports, a);
            RunJobs(jobs, plans, reports, a + b) ==
              if first.Err? then first else RunJobs(jobs, plans, first.value, b)
    decreases a
  {
    if a == [] {
      assert a + b == b;
    } else {
      assert (a + b)[0] == a[0] && (a + b)[1..] == a[1..] + b;
      var one := RunOne(jobs, plans, reports, a[0]);
      if one.Ok? {
        RunJobsConcat(jobs, plans, reports[a[0] := one.value], a[1..], b);
      }
    }
  }

  /** The job at position j has its turn and stops the run. */
  predicate StopsRun(jobs: Jobs, plans: map<string, Plan>, order: seq<string>, j: nat)
    requires ValidPlans(jobs, plans) && (forall n :: n in order ==> n in jobs)
  {
    j < |order| && Due(jobs, plans, order, j) && Breaks(plans[order[j]])
  }

  /** One job more. */
  lemma RunLonger(jobs: Jobs, plans: map<string, Plan>, order: seq<string>, j: nat)
    requires ValidPlans(jobs, plans) && (forall n :: n in order ==> n in jobs) && j < |order|
    ensures var before := RunJobs(jobs, plans, map[], order[..j]);
            var after := RunJobs(jobs, plans, map[], order[..j + 1]);
            && (before.Err? ==> after == before)
            && (before.Ok? ==> (after.Err? <==> StopsRun(jobs, plans, order, j)))
            && (before.Ok? && after.Err? ==> after == Err(JobError(order[j])))
  {
    var n := order[j];
    assert order[..j + 1] == order[..j] + [n] && [n][1..] == [];
    RunJobsConcat(jobs, plans, map[], order[..j], [n]);
    RunPoolErrorIff(n, plans[n]);
    var before := RunJobs(jobs, plans, map[], order[..j]);
    if before.Ok? {
      var one := RunOne(jobs, plans, before.value, n);
      assert RunJobs(jobs, plans, before.value, [n]) ==
             if one.Err? then Err(one.error) else RunJobs(jobs, plans, before.value[n := one.value], [n][1..]);
    }
  }

  /**
    The run stops with an error iff some job whose needs all succeeded cannot be started or has a
    combination that came to an error; the first such job is the one named.
   */
  lemma {:induction false} StopsIff(jobs: Jobs, plans: map<string, Plan>, order: seq<string>, k: nat)
    requires ValidPlans(jobs, plans) && (forall n :: n in order ==> n in jobs) && k <= |order|
    ensures var r := RunJobs(jobs, plans, map[], order[..k]);
            && (r.Err? <==> exists j: nat :: j < k && StopsRun(jobs, plans, order, j))
            && (r.Err? ==> exists j: nat :: j < k && StopsRun(jobs, plans, order, j) && r.error == JobError(order[j]))
    decreases k
  {
    if k > 0 {
      StopsIff(jobs, plans, order, k - 1);
      RunLonger(jobs, plans, order, k - 1);
      assert StopsRun(jobs, plans, order, k - 1) ==> RunJobs(jobs, plans, map[], order[..k - 1]).Ok?;
    }
  }

  // ----- the exit code -----

  method ExitCode(r: Result<WorkflowResult, WorkflowError>) returns (code: int)
    requires r.Ok? ==> forall n :: n in r.value.order ==> n in r.value.jobs
    ensures code == 0 || code == 1
    ensures code == 0 <==> r.Ok? && forall n :: n in r.value.order ==> r.value.jobs[n].conclusion != Failure
  {
    if r.Err? {
      return 1;
    }
    code := 0;
    var order := r.value.order;
    for i := 0 to |order|
      invariant code == 0 || code == 1
      invariant code == 0 <==> forall k :: 0 <= k < i ==> r.value.jobs[order[k]].conclusion != Failure
    {
      if r.value.jobs[order[i]].conclusion == Failure {
        code := 1;
      }
    }
  }

  /**
    Exit code 0 iff every combination of every job ran and succeeded: a skipped job always has a
    failed need to blame.
   */
  lemma NoFailureMeansEverythingRan(jobs: Jobs, plans: map<string, Plan>, order: seq<string>)
    requires ValidPlans(jobs, plans) && Lists(order, jobs.Keys) && NeedsEarlier(jobs, order)
    requires RunJobs(jobs, plans, map[], order).Ok?
    ensures var reports := RunJobs(jobs, plans, map[], order).value;
            && reports.Keys == jobs.Keys
            && ((forall n :: n in order ==> reports[n].conclusion != Failure) <==>
                (forall n :: n in jobs ==>
                   && plans[n].Plan? && reports[n].combos == PoolEnd(plans[n]).results
                   && reports[n].conclusion == Success
                   && forall i :: 0 <= i < |reports[n].combos| ==> reports[n].combos[i] == Pool.Ran(Pool.Succeeded)))
  {
    assert order[0..] == order;
    RunJobsSettles(jobs, plans, map[], order, 0);
    forall n | n in jobs ensures var reports := RunJobs(jobs, plans, map[], order).value;
      (forall k :: k in order ==> reports[k].conclusion != Failure) ==>
         && plans[n].Plan? && reports[n].combos == PoolEnd(plans[n]).results && reports[n].conclusion == Success
         && forall i :: 0 <= i < |reports[n].combos| ==> reports[n].combos[i] == Pool.Ran(Pool.Succeeded)
    {
      WorkflowSound(jobs, plans, order, n);
    }
  }

  /** Job n, given the chance, runs every one of its combinations and each succeeds. */
  predicate Succeeds(plan: Plan)
    requires ValidPlan(plan)
  {
    plan.Plan? && forall i :: 0 <= i < |PoolEnd(plan).results| ==> PoolEnd(plan).results[i] == Pool.Ran(Pool.Succeeded)
  }

  lemma SucceedsConcludes(jobs: Jobs, plans: map<string, Plan>, reports: map<string, JobReport>, n: string)
    requires ValidPlans(jobs, plans) && n in jobs && Succeeds(plans[n]) && NeedsSucceeded(jobs, reports, n)
    ensures RunOne(jobs, plans, reports, n) == Ok(JobReport(Success, PoolEnd(plans[n]).results))
  {
    var plan := plans[n];
    assert |PoolEnd(plan).results| == plan.cfg.n;
    PoolSafety.AllSucceededMeansNoError(plan.cfg, plan.schedule);
  }

  lemma {:induction false} AllSucceed(jobs: Jobs, plans: map<string, Plan>, reports: map<string, JobReport>,
                                      order: seq<string>, i: nat)
    requires ValidPlans(jobs, plans) && Lists(order, jobs.Keys) && NeedsEarlier(jobs, order) && i <= |order|
    requires forall n :: n in jobs ==> Succeeds(plans[n])
    requires forall n :: n in reports <==> n in order[..i]
    requires forall n :: n in reports ==> reports[n].conclusion == Success
    ensures var r := RunJobs(jobs, plans, reports, order[i..]);
            r.Ok? && r.value.Keys == jobs.Keys && forall n :: n in r.value ==> r.value[n].conclusion == Success
    decreases |order| - i
  {
    if i == |order| {
      assert order[..i] == order;
    } else {
      var n := order[i];
      assert n in order;
      NextInOrder(jobs, order, i);
      SucceedsConcludes(jobs, plans, reports, n);
      RunJobsTurn(jobs, plans, reports, order, i);
      AllSucceed(jobs, plans, reports[n := JobReport(Success, PoolEnd(plans[n]).results)], order, i + 1);
    }
  }

  /** No job of the run concludes failure iff every combination of every job succeeds. */
  lemma CleanRunIff(jobs: Jobs, plans: map<string, Plan>, order: seq<string>)
    requires ValidPlans(jobs, plans) && Lists(order, jobs.Keys) && NeedsEarlier(jobs, order)
    ensures var r := RunJobs(jobs, plans, map[], order);
            (r.Ok? && forall n :: n in order ==> n in r.value && r.value[n].conclusion != Failure) <==>
            (forall n :: n in jobs ==> Succeeds(plans[n]))
  {
    assert order[0..] == order;
    var r := RunJobs(jobs, plans, map[], order);
    if forall n :: n in jobs ==> Succeeds(plans[n]) {
      AllSucceed(jobs, plans, map[], order, 0);
    }
    if r.Ok? {
      NoFailureMeansEverythingRan(jobs, plans, order);
    }
  }

  lemma CleanWholeRunIff(jobs: Jobs, plans: map<string, Plan>, listing: seq<string>)
    requires ValidPlans(jobs, plans) && Lists(listing, jobs.Keys)
    ensures var r := WholeRun(jobs, plans, listing);
            (r.Ok? && forall n :: n in r.value.order ==>
              n in r.value.jobs && r.value.jobs[n].conclusion != Failure) <==>
            (AllNeedsKnown(jobs) && !HasCycle(jobs) && forall n :: n in jobs ==> Succeeds(plans[n]))
  {
    TopoSortCorrect(jobs, listing);
    var sorted := TopoSort(jobs, listing);
    if sorted.Ok? {
      CleanRunIff(jobs, plans, sorted.value.order);
    }
  }

  /**
    mirror run, from its parsed workflow to its exit code: 0 iff there is a workspace, the needs
    graph is sound and acyclic, and every combination of every job runs and succeeds.
   */
  method RunCommand(jobs: Jobs, plans: map<string, Plan>, workspaceDir: string) returns (code: int)
    requires ValidPlans(jobs, plans)
    ensures code == 0 || code == 1
    ensures code == 0 <==>
              && workspaceDir != "" && AllNeedsKnown(jobs) && !HasCycle(jobs)
              && forall n :: n in jobs ==> Succeeds(plans[n])
  {
    var r := RunWorkflow(jobs, plans, workspaceDir);
    if r.Ok? {
      NoFailureMeansEverythingRan(jobs, plans, r.value.order);
    }
    CleanWholeRunIff(jobs, plans, Listing(jobs.Keys));
    code := ExitCode(r);
  }
}
