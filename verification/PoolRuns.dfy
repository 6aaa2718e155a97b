/** Runs of the pool, and the stretches of events that take one combination through a stage of its goroutine. */
module PoolRuns {
  import opened Pool
  import S = Scheduler

  /** Some run takes the pool from s to s'. */
  ghost predicate RunsTo(cfg: Config, s: State, s': State) {
    Shaped(cfg, s) && exists es :: CanRun(cfg, s, es) && Run(cfg, s, es) == s'
  }

  ghost predicate Reachable(cfg: Config, s: State) {
    RunsTo(cfg, Init(cfg), s)
  }

  lemma ReachableInv(cfg: Config, s: State)
    requires ValidConfig(cfg) && Reachable(cfg, s)
    ensures Inv(cfg, s)
  {
    InitInv(cfg);
    var es :| CanRun(cfg, Init(cfg), es) && Run(cfg, Init(cfg), es) == s;
    RunKeepsInv(cfg, Init(cfg), es);
  }

  lemma {:induction false} RunConcat(cfg: Config, s: State, a: seq<Event>, b: seq<Event>)
    requires Shaped(cfg, s) && CanRun(cfg, s, a) && CanRun(cfg, Run(cfg, s, a), b)
    ensures CanRun(cfg, s, a + b) && Run(cfg, s, a + b) == Run(cfg, Run(cfg, s, a), b)
    decreases a
  {
    if a == [] {
      assert a + b == b;
    } else {
      RunConcat(cfg, Apply(cfg, s, a[0]), a[1..], b);
      assert (a + b)[0] == a[0] && (a + b)[1..] == a[1..] + b;
    }
  }

  lemma RunsOn(cfg: Config, s: State, t: State, u: State)
    requires RunsTo(cfg, s, t) && RunsTo(cfg, t, u)
    ensures RunsTo(cfg, s, u)
  {
    var a :| CanRun(cfg, s, a) && Run(cfg, s, a) == t;
    var b :| CanRun(cfg, t, b) && Run(cfg, t, b) == u;
    RunConcat(cfg, s, a, b);
  }

  lemma RunsNowhere(cfg: Config, s: State)
    requires Shaped(cfg, s)
    ensures RunsTo(cfg, s, s)
  {
    assert CanRun(cfg, s, []) && Run(cfg, s, []) == s;
  }

  lemma OneEvent(cfg: Config, s: State, e: Event)
    requires Shaped(cfg, s) && Enabled(cfg, s, e)
    ensures RunsTo(cfg, s, Apply(cfg, s, e))
  {
    var es := [e];
    var s' := Apply(cfg, s, e);
    assert es[0] == e && es[1..] == [];
    assert CanRun(cfg, s', []) && Run(cfg, s', []) == s';
    assert CanRun(cfg, s, es) && Run(cfg, s, es) == Run(cfg, s', es[1..]);
  }

  lemma ThenEvent(cfg: Config, s: State, t: State, e: Event)
    requires RunsTo(cfg, s, t) && Shaped(cfg, t) && Enabled(cfg, t, e)
    ensures RunsTo(cfg, s, Apply(cfg, t, e))
  {
    OneEvent(cfg, t, e);
    RunsOn(cfg, s, t, Apply(cfg, t, e));
  }

  // ----- stages of one goroutine -----

  /** Combination k has its slot, has opened the gate for its successor, and is about to look at the fail-fast flag. */
  function WithSlot(cfg: Config, s: State, k: nat): State
    requires Shaped(cfg, s) && k < cfg.n
  {
    s.(pcs := s.pcs[k := CheckStop], gates := s.gates[k := k + 1 < cfg.n], sem := s.sem + 1)
  }

  lemma Acquires(cfg: Config, s: State, k: nat)
    requires Shaped(cfg, s) && k < cfg.n && s.pcs[k].AwaitTurn? && (k == 0 || s.gates[k - 1])
    requires s.sem < cfg.maxParallel
    ensures RunsTo(cfg, s, s.(pcs := s.pcs[k := OpenGate], sem := s.sem + 1))
  {
    OneEvent(cfg, s, Turn(k));
    ThenEvent(cfg, s, Apply(cfg, s, Turn(k)), Acquire(k));
    assert s.pcs[k := WantSlot][k := OpenGate] == s.pcs[k := OpenGate];
  }

  lemma TakesSlot(cfg: Config, s: State, k: nat)
    requires Shaped(cfg, s) && k < cfg.n && s.pcs[k].AwaitTurn? && (k == 0 || s.gates[k - 1])
    requires s.sem < cfg.maxParallel
    ensures RunsTo(cfg, s, WithSlot(cfg, s, k))
  {
    Acquires(cfg, s, k);
    ThenEvent(cfg, s, s.(pcs := s.pcs[k := OpenGate], sem := s.sem + 1), Open(k));
    assert s.pcs[k := OpenGate][k := CheckStop] == s.pcs[k := CheckStop];
  }

  /** Combination k runs, let into its group by a token where one is needed. */
  function Entered(cfg: Config, s: State, k: nat): State
    requires Shaped(cfg, s) && k < cfg.n && !GroupFails(cfg, k) && S.Enabled(s.sched, EnterOp(cfg, k, true))
  {
    s.(pcs := s.pcs[k := Running], sched := S.Apply(s.sched, EnterOp(cfg, k, true)))
  }

  lemma Enters(cfg: Config, s: State, k: nat)
    requires Shaped(cfg, s) && k < cfg.n && s.pcs[k].CheckStop? && !s.stop
    requires !GroupFails(cfg, k) && S.Enabled(s.sched, EnterOp(cfg, k, true))
    ensures RunsTo(cfg, s, Entered(cfg, s, k))
  {
    OneEvent(cfg, s, Check(k));
    var s1 := Apply(cfg, s, Check(k));
    ThenEvent(cfg, s, s1, Enter(k, true));
    assert s.pcs[k := WantGroup][k := Running] == s.pcs[k := Running];
  }

  /** Combination k's verdict is recorded. */
  function Concluded(cfg: Config, s: State, k: nat, v: Verdict): State
    requires Shaped(cfg, s) && k < cfg.n
  {
    s.(pcs := s.pcs[k := LeaveGroup],
       firstErr := s.firstErr || v == Errored,
       stop := s.stop || (v == Failed && cfg.failFast),
       results := s.results[k := Ran(v)])
  }

  lemma Concludes(cfg: Config, s: State, k: nat, v: Verdict)
    requires Shaped(cfg, s) && k < cfg.n && s.pcs[k].Running?
    ensures RunsTo(cfg, s, Concluded(cfg, s, k, v))
  {
    OneEvent(cfg, s, Return(k, v));
    var s1 := Apply(cfg, s, Return(k, v));
    ThenEvent(cfg, s, s1, Record(k));
    assert s.pcs[k := Recording(v)][k := LeaveGroup] == s.pcs[k := LeaveGroup];
  }

  /** Combination k has released its group and its slot. */
  function Left(cfg: Config, s: State, k: nat): State
    requires Shaped(cfg, s) && k < cfg.n && s.sem > 0 && S.ReleaseReady(s.sched, k)
  {
    s.(pcs := s.pcs[k := Finished], sem := s.sem - 1, sched := S.Leave(s.sched, k))
  }

  lemma Leaves(cfg: Config, s: State, k: nat)
    requires Shaped(cfg, s) && k < cfg.n && s.pcs[k].LeaveGroup? && s.sem > 0 && S.ReleaseReady(s.sched, k)
    ensures RunsTo(cfg, s, Left(cfg, s, k))
  {
    OneEvent(cfg, s, Exit(k));
    var s1 := Apply(cfg, s, Exit(k));
    ThenEvent(cfg, s, s1, Free(k));
    assert s.pcs[k := LeaveSlot][k := Finished] == s.pcs[k := Finished];
  }

  /** Combination k, whose group name cannot be evaluated, has reported that and given its slot back. */
  function TurnedAway(cfg: Config, s: State, k: nat): State
    requires Shaped(cfg, s) && k < cfg.n && s.sem > 0
  {
    s.(pcs := s.pcs[k := Finished], sem := s.sem - 1, firstErr := true, results := s.results[k := Ran(Errored)])
  }

  lemma TurnsAway(cfg: Config, s: State, k: nat)
    requires Shaped(cfg, s) && k < cfg.n && s.pcs[k].CheckStop? && !s.stop && s.sem > 0 && GroupFails(cfg, k)
    ensures RunsTo(cfg, s, TurnedAway(cfg, s, k))
  {
    OneEvent(cfg, s, Check(k));
    var s1 := Apply(cfg, s, Check(k));
    ThenEvent(cfg, s, s1, Enter(k, true));
    var s2 := Apply(cfg, s1, Enter(k, true));
    ThenEvent(cfg, s, s2, Free(k));
    assert s.pcs[k := WantGroup][k := LeaveSlot][k := Finished] == s.pcs[k := Finished];
  }
}
