/**
  Concurrency groups inside the pool, told from program counters and evaluated group names alone:
  which combinations may run together, and which of those at acquire are let in.
 */
module PoolGroups {
  import opened Pool
  import opened PoolRuns
  import S = Scheduler
  import P = Preemption
  import PoolPreemption

  /** Combination i has been let into the group g and has not left it. */
  predicate RunsIn(cfg: Config, s: State, i: nat, g: string)
    requires Shaped(cfg, s)
  {
    i < cfg.n && cfg.groups[i] == Group(g) && InGroup(s.pcs[i])
  }

  predicate Alive(s: State, i: nat) {
    i !in s.sched.done
  }

  // ----- what a combination inside its group holds -----

  /** The release closure that a combination of this job and group name is handed. */
  predicate RightHold(mode: Mode, name: GroupName, h: S.Hold) {
    if mode == NoConcurrency || name == Group("") then h == S.Unmanaged
    else if name == BadGroup then false
    else if mode == Queueing then h == S.Token(name.name) || h == S.Bypass(name.name)
    else h.Ticket? && h.group == name.name
  }

  predicate RightHolds(cfg: Config, s: State)
    requires Shaped(cfg, s)
  {
    forall i: nat :: i in s.sched.holds && i < cfg.n ==> RightHold(cfg.mode, cfg.groups[i], s.sched.holds[i])
  }

  lemma OpKeepsHolds(s: S.State, op: S.Op)
    requires S.Enabled(s, op)
    ensures forall c :: c in S.Apply(s, op).holds && c != op.caller ==>
              c in s.holds && S.Apply(s, op).holds[c] == s.holds[c]
    ensures op.Exit? ==> op.caller !in S.Apply(s, op).holds
    ensures op.Expire? ==> S.Apply(s, op).holds == s.holds
  {
  }

  lemma EntersRight(cfg: Config, s: State, i: nat, byToken: bool)
    requires Shaped(cfg, s) && Enabled(cfg, s, Enter(i, byToken)) && !GroupFails(cfg, i)
    ensures var op := EnterOp(cfg, i, byToken);
            && op.caller == i && !op.Exit? && !op.Expire? && i in S.Apply(s.sched, op).holds
            && RightHold(cfg.mode, cfg.groups[i], S.Apply(s.sched, op).holds[i])
  {
  }

  lemma ApplyKeepsRight(cfg: Config, s: State, e: Event)
    requires Shaped(cfg, s) && RightHolds(cfg, s) && Enabled(cfg, s, e)
    ensures RightHolds(cfg, Apply(cfg, s, e))
  {
    var op := SchedOp(cfg, s, e);
    if op.Some? {
      OpKeepsHolds(s.sched, op.value);
      if e.Enter? {
        EntersRight(cfg, s, e.i, e.byToken);
      }
    }
  }

  lemma {:induction false} RunKeepsRight(cfg: Config, s: State, es: seq<Event>)
    requires Shaped(cfg, s) && RightHolds(cfg, s) && CanRun(cfg, s, es)
    ensures RightHolds(cfg, Run(cfg, s, es))
    decreases es
  {
    if es != [] {
      ApplyKeepsRight(cfg, s, es[0]);
      RunKeepsRight(cfg, Apply(cfg, s, es[0]), es[1..]);
    }
  }

  /** Whoever runs in a group holds what its job and its group name say. */
  lemma RunnerHolds(cfg: Config, s: State, i: nat, g: string)
    requires ValidConfig(cfg) && Reachable(cfg, s) && RunsIn(cfg, s, i, g)
    ensures i in s.sched.holds && RightHold(cfg.mode, Group(g), s.sched.holds[i])
  {
    ReachableInv(cfg, s);
    var es :| CanRun(cfg, Init(cfg), es) && Run(cfg, Init(cfg), es) == s;
    RunKeepsRight(cfg, Init(cfg), es);
  }

  // ----- queue mode -----

  /**
    In every reachable state of a job that queues, at most one combination of a group is running
    with a live context.
   */
  lemma QueuedCombinationsExclusive(cfg: Config, s: State, i: nat, j: nat, g: string)
    requires ValidConfig(cfg) && Reachable(cfg, s) && cfg.mode == Queueing && g != ""
    requires RunsIn(cfg, s, i, g) && Alive(s, i) && RunsIn(cfg, s, j, g) && Alive(s, j)
    ensures i == j
  {
    RunnerHolds(cfg, s, i, g);
    RunnerHolds(cfg, s, j, g);
    var es :| CanRun(cfg, Init(cfg), es) && Run(cfg, Init(cfg), es) == s;
    S.QueueModeExclusive(SchedOps(cfg, Init(cfg), es), g, i, j);
  }

  /** Some choice of the select lets combination i in now. */
  predicate LetIn(cfg: Config, s: State, i: nat)
    requires Shaped(cfg, s)
  {
    Enabled(cfg, s, Enter(i, true)) || Enabled(cfg, s, Enter(i, false))
  }

  lemma WaiterHoldsNothing(cfg: Config, s: State, i: nat)
    requires ValidConfig(cfg) && Reachable(cfg, s) && i < cfg.n && s.pcs[i].WantGroup?
    ensures i !in s.sched.holds
  {
    ReachableInv(cfg, s);
  }

  /** A live combination of a queued group holds its token. */
  lemma LiveHoldsToken(cfg: Config, s: State, j: nat, g: string)
    requires ValidConfig(cfg) && Reachable(cfg, s) && cfg.mode == Queueing && g != ""
    requires RunsIn(cfg, s, j, g) && Alive(s, j)
    ensures S.Lookup(s.sched.tokens, g) > 0
  {
    RunnerHolds(cfg, s, j, g);
    ReachableInv(cfg, s);
    S.ReleaseNeverBlocks(s.sched, j);
  }

  /** While a live combination runs in its group, another waits, unless its own context is done. */
  lemma BusyGroupBlocks(cfg: Config, s: State, i: nat, j: nat, g: string)
    requires ValidConfig(cfg) && Reachable(cfg, s) && cfg.mode == Queueing && g != ""
    requires i < cfg.n && s.pcs[i].WantGroup? && cfg.groups[i] == Group(g)
    requires RunsIn(cfg, s, j, g) && Alive(s, j)
    ensures LetIn(cfg, s, i) <==> !Alive(s, i)
  {
    WaiterHoldsNothing(cfg, s, i);
    LiveHoldsToken(cfg, s, j, g);
  }

  lemma FullGroupRuns(cfg: Config, s: State, g: string) returns (j: nat)
    requires ValidConfig(cfg) && Reachable(cfg, s) && cfg.mode == Queueing && S.Lookup(s.sched.tokens, g) > 0
    ensures RunsIn(cfg, s, j, g)
  {
    ReachableInv(cfg, s);
    var es :| CanRun(cfg, Init(cfg), es) && Run(cfg, Init(cfg), es) == s;
    RunKeepsRight(cfg, Init(cfg), es);
    j := S.FullChannelHasHolder(s.sched, g);
    assert RightHold(cfg.mode, cfg.groups[j], s.sched.holds[j]);
  }

  /** A group in which nothing runs lets anyone in. */
  lemma IdleGroupAdmits(cfg: Config, s: State, i: nat, g: string)
    requires ValidConfig(cfg) && Reachable(cfg, s) && cfg.mode == Queueing
    requires i < cfg.n && s.pcs[i].WantGroup? && cfg.groups[i] == Group(g)
    requires forall j: nat :: !RunsIn(cfg, s, j, g)
    ensures Enabled(cfg, s, Enter(i, true)) && Apply(cfg, s, Enter(i, true)).pcs[i] == Running
  {
    WaiterHoldsNothing(cfg, s, i);
    if S.Lookup(s.sched.tokens, g) > 0 {
      var j := FullGroupRuns(cfg, s, g);
    }
  }

  // ----- no group -----

  /** The combination is in no group: its job has none, or the name is empty. */
  predicate Ungrouped(cfg: Config, i: nat)
    requires i < |cfg.groups|
  {
    cfg.mode == NoConcurrency || cfg.groups[i] == Group("")
  }

  /** Without a group nobody waits and nobody is cancelled. */
  lemma UngroupedRuns(cfg: Config, s: State, i: nat, byToken: bool)
    requires ValidConfig(cfg) && Reachable(cfg, s) && i < cfg.n && s.pcs[i].WantGroup? && Ungrouped(cfg, i)
    ensures Enabled(cfg, s, Enter(i, byToken))
    ensures var s' := Apply(cfg, s, Enter(i, byToken)); s'.pcs[i] == Running && s'.sched.done == s.sched.done
  {
    WaiterHoldsNothing(cfg, s, i);
  }

  /** A combination whose group name cannot be evaluated errs without running, and only such a one does. */
  lemma TurnedAwayIff(cfg: Config, s: State, i: nat, byToken: bool)
    requires Shaped(cfg, s) && Enabled(cfg, s, Enter(i, byToken))
    ensures var s' := Apply(cfg, s, Enter(i, byToken));
            if cfg.mode != NoConcurrency && cfg.groups[i] == BadGroup
            then s'.pcs[i] == LeaveSlot && s'.results[i] == Ran(Errored) && s'.firstErr && s'.sched == s.sched
            else s'.pcs[i] == Running && s'.results == s.results && s'.firstErr == s.firstErr
  {
  }

  // ----- contexts -----

  predicate NobodyDone(cfg: Config, s: State)
    requires Shaped(cfg, s)
  {
    s.sched.done == {} && RightHolds(cfg, s)
  }

  lemma {:induction false} RunCancelsNobody(cfg: Config, s: State, es: seq<Event>)
    requires Shaped(cfg, s) && NobodyDone(cfg, s) && CanRun(cfg, s, es) && !cfg.timeout && cfg.mode != CancelInProgress
    requires HoldsFit(s.pcs, s.sched.holds, s.sched.done) && S.EntriesCurrent(s.sched)
    ensures NobodyDone(cfg, Run(cfg, s, es))
    decreases es
  {
    if es != [] {
      var op := SchedOp(cfg, s, es[0]);
      if op.Some? {
        S.ApplyKeepsEntries(s.sched, op.value);
      }
      ApplyKeepsHolds(cfg, s, es[0]);
      ApplyKeepsRight(cfg, s, es[0]);
      RunCancelsNobody(cfg, Apply(cfg, s, es[0]), es[1..]);
    }
  }

  /** Without a timeout, a job that does not cancel in progress never ends a combination's context. */
  lemma OnlyTimeoutsEnd(cfg: Config, s: State)
    requires ValidConfig(cfg) && Reachable(cfg, s) && !cfg.timeout && cfg.mode != CancelInProgress
    ensures s.sched.done == {}
  {
    InitInv(cfg);
    var es :| CanRun(cfg, Init(cfg), es) && Run(cfg, Init(cfg), es) == s;
    RunCancelsNobody(cfg, Init(cfg), es);
  }

  // ----- cancel-in-progress mode -----

  /** Nobody waits, and the registered combination of the group is cancelled. */
  lemma PreemptingEnters(cfg: Config, s: State, i: nat, byToken: bool, g: string)
    requires ValidConfig(cfg) && Reachable(cfg, s) && cfg.mode == CancelInProgress && g != ""
    requires i < cfg.n && s.pcs[i].WantGroup? && cfg.groups[i] == Group(g)
    ensures Enabled(cfg, s, Enter(i, byToken))
    ensures var s' := Apply(cfg, s, Enter(i, byToken));
            && s'.pcs[i] == Running && g in s'.sched.entry && s'.sched.entry[g] == i
            && s'.sched.done == s.sched.done + (if g in s.sched.entry then {s.sched.entry[g]} else {})
  {
    WaiterHoldsNothing(cfg, s, i);
  }

  /** In cancel-in-progress mode the same holds of every run whose clearing releases are drained. */
  lemma PreemptedCombinationsExclusive(cfg: Config, es: seq<Event>, i: nat, j: nat, g: string)
    requires ValidConfig(cfg) && CanRun(cfg, Init(cfg), es) && cfg.mode == CancelInProgress && g != ""
    requires P.EveryReleaseDrained(S.FRESH, SchedOps(cfg, Init(cfg), es))
    ensures var s := Run(cfg, Init(cfg), es);
            RunsIn(cfg, s, i, g) && Alive(s, i) && RunsIn(cfg, s, j, g) && Alive(s, j) ==> i == j
  {
    var s := Run(cfg, Init(cfg), es);
    P.DrainedRunsSafe(SchedOps(cfg, Init(cfg), es), g, 0);
    if RunsIn(cfg, s, i, g) && Alive(s, i) && RunsIn(cfg, s, j, g) && Alive(s, j) {
      assert Reachable(cfg, s);
      RunnerHolds(cfg, s, i, g);
      RunnerHolds(cfg, s, j, g);
      assert P.Live(s.sched, i, g) && P.Live(s.sched, j, g);
    }
  }

  /** In a reachable state the live holders of a group are its live running combinations. */
  lemma LiveIsRunning(cfg: Config, s: State, i: nat, g: string)
    requires ValidConfig(cfg) && Reachable(cfg, s) && cfg.mode == CancelInProgress && g != ""
    ensures P.Live(s.sched, i, g) <==> RunsIn(cfg, s, i, g) && Alive(s, i)
  {
    ReachableInv(cfg, s);
    if RunsIn(cfg, s, i, g) {
      RunnerHolds(cfg, s, i, g);
    }
    if P.Live(s.sched, i, g) {
      var es :| CanRun(cfg, Init(cfg), es) && Run(cfg, Init(cfg), es) == s;
      RunKeepsRight(cfg, Init(cfg), es);
      assert RightHold(cfg.mode, cfg.groups[i], s.sched.holds[i]);
    }
  }

  /** Two combinations of the group are running, and neither context is done. */
  predicate Together(cfg: Config, s: State, i: nat, j: nat, g: string) {
    Shaped(cfg, s) && i != j && RunsIn(cfg, s, i, g) && Alive(s, i) && RunsIn(cfg, s, j, g) && Alive(s, j)
  }

  /** Which jobs let two live combinations of a group run together, decided before they start. */
  lemma TogetherIff(cfg: Config, g: string)
    requires ValidConfig(cfg) && cfg.mode == CancelInProgress && g != ""
    ensures (exists s, i: nat, j: nat :: Reachable(cfg, s) && Together(cfg, s, i, j, g)) <==>
              cfg.maxParallel >= 2 && |PoolPreemption.Members(cfg, g)| >= 4
  {
    PoolPreemption.SharingIff(cfg, g);
    if PoolPreemption.CanShare(cfg, g) {
      var s :| Reachable(cfg, s) && !P.AtMostOneLive(s.sched, g);
      var i, j :| P.Live(s.sched, i, g) && P.Live(s.sched, j, g) && i != j;
      LiveIsRunning(cfg, s, i, g);
      LiveIsRunning(cfg, s, j, g);
      assert Together(cfg, s, i, j, g);
    }
    if exists s, i: nat, j: nat :: Reachable(cfg, s) && Together(cfg, s, i, j, g) {
      var s, i: nat, j: nat :| Reachable(cfg, s) && Together(cfg, s, i, j, g);
      LiveIsRunning(cfg, s, i, g);
      LiveIsRunning(cfg, s, j, g);
      assert !P.AtMostOneLive(s.sched, g);
    }
  }
}
