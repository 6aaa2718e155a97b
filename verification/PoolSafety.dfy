/** What every interleaving of the pool keeps, and when the pool is the sequential loop. */
module PoolSafety {
  import opened Pool
  import opened PoolRuns
  import S = Scheduler

  // ----- slots -----

  lemma {:induction false} AcquiredIsPrefix(s: State, i: nat, j: nat)
    requires |s.pcs| == |s.gates| && Gates(s.pcs, s.gates)
    requires i <= j < |s.pcs| && Acquired(s.pcs[j])
    ensures Acquired(s.pcs[i]) && (i < j ==> PastGate(s.pcs[i]))
    decreases j - i
  {
    if i < j {
      assert s.gates[j - 1];
      AcquiredIsPrefix(s, i, j - 1);
      if i < j - 1 {
        assert PastGate(s.pcs[i]);
      }
    }
  }

  /** Slots are taken in index order, and at most maxParallel are taken at a time. */
  lemma SlotsInIndexOrder(cfg: Config, s: State, i: nat, j: nat)
    requires ValidConfig(cfg) && Reachable(cfg, s)
    ensures |SlotHolders(s)| <= cfg.maxParallel
    ensures i < j < cfg.n && Acquired(s.pcs[j]) ==> Acquired(s.pcs[i])
  {
    ReachableInv(cfg, s);
    if i < j < cfg.n && Acquired(s.pcs[j]) {
      AcquiredIsPrefix(s, i, j);
    }
  }

  // ----- fail-fast -----

  /** Combination i was let past the stopStartingNew check. */
  predicate Started(s: State, i: nat)
    requires i < |s.pcs| == |s.results|
  {
    s.pcs[i].WantGroup? || InGroup(s.pcs[i]) || s.results[i].Ran?
  }

  /** What one event does to the results: the combination it belongs to is skipped, runs, or errs, at most once. */
  lemma Effects(cfg: Config, s: State, e: Event)
    requires Shaped(cfg, s) && ResultsFit(s) && Enabled(cfg, s, e)
    ensures var s' := Apply(cfg, s, e);
            && s'.pcs == s.pcs[e.i := s'.pcs[e.i]] && s'.results == s.results[e.i := s'.results[e.i]]
            && s'.stop == (s.stop || (cfg.failFast && e.Record? && s.pcs[e.i].v == Failed))
            && (s'.results[e.i] != s.results[e.i] ==> s.results[e.i].Pending?)
            && (s'.results[e.i].Skipped? <==> s.results[e.i].Skipped? || (e.Check? && s.stop))
            && (s'.results[e.i] == Ran(Failed) <==>
              s.results[e.i] == Ran(Failed) || (e.Record? && s.pcs[e.i].v == Failed))
            && (Started(s', e.i) <==> Started(s, e.i) || (e.Check? && !s.stop))
  {
    match e {
      case Record(i) => assert s.results[i].Pending?;
      case Check(i) => assert s.results[i].Pending?;
      case Enter(i, byToken) => assert s.results[i].Pending?;
      case _ =>
    }
  }

  lemma OneEventAfterFailure(cfg: Config, s: State, e: Event, i: nat, k: nat)
    requires Shaped(cfg, s) && ResultsFit(s) && Flags(cfg, s) && Enabled(cfg, s, e) && i < cfg.n
    requires cfg.failFast && k < cfg.n && s.results[k] == Ran(Failed)
    ensures Apply(cfg, s, e).results[k] == Ran(Failed) && (Started(Apply(cfg, s, e), i) <==> Started(s, i))
  {
    Effects(cfg, s, e);
    assert s.stop;
  }

  /** From the first recorded failure on, the set of started combinations does not change. */
  lemma {:induction false} NothingStartsAfterFailure(cfg: Config, s: State, es: seq<Event>, i: nat, k: nat)
    requires Inv(cfg, s) && CanRun(cfg, s, es) && i < cfg.n
    requires cfg.failFast && k < cfg.n && s.results[k] == Ran(Failed)
    ensures Started(Run(cfg, s, es), i) <==> Started(s, i)
    decreases es
  {
    if es != [] {
      OneEventAfterFailure(cfg, s, es[0], i, k);
      ApplyKeepsInv(cfg, s, es[0]);
      NothingStartsAfterFailure(cfg, Apply(cfg, s, es[0]), es[1..], i, k);
    }
  }

  // ----- one slot: the pool is the sequential loop -----

  /** The loop a single worker would run over the combinations. */
  function Sequential(verdicts: seq<Verdict>, failFast: bool, stop: bool): (r: seq<Outcome>)
    ensures |r| == |verdicts|
  {
    if verdicts == [] then []
    else if stop then [Outcome.Skipped] + Sequential(verdicts[1..], failFast, stop)
    else [Ran(verdicts[0])] + Sequential(verdicts[1..], failFast, failFast && verdicts[0] == Failed)
  }

  predicate FailedIn(results: seq<Outcome>, i: nat)
    requires i <= |results|
  {
    exists j :: 0 <= j < i && results[j] == Ran(Failed)
  }

  predicate FailedBefore(s: State, i: nat)
    requires i <= |s.results|
  {
    FailedIn(s.results, i)
  }

  /** Combinations run one after another. */
  predicate OneAtATime(s: State) {
    forall i, j :: 0 <= i < j < |s.pcs| && Acquired(s.pcs[j]) ==> s.pcs[i].Finished?
  }

  predicate InOrderAt(cfg: Config, s: State, k: nat)
    requires Shaped(cfg, s) && k < cfg.n
  {
    && (s.results[k].Skipped? ==> FailedBefore(s, k))
    && (cfg.failFast && Started(s, k) ==> !FailedBefore(s, k))
  }

  predicate InOrder(cfg: Config, s: State)
    requires Shaped(cfg, s)
  {
    forall i: nat :: i < cfg.n ==> InOrderAt(cfg, s, i)
  }

  lemma AcquireWithOneSlot(cfg: Config, s: State, j: nat)
    requires Inv(cfg, s) && cfg.maxParallel == 1 && Enabled(cfg, s, Acquire(j))
    ensures forall i :: 0 <= i < j ==> s.pcs[i].Finished?
  {
    assert SlotHolders(s) == {};
    forall i: nat | i < j ensures s.pcs[i].Finished? {
      assert s.gates[j - 1] && PastGate(s.pcs[j - 1]);
      AcquiredIsPrefix(s, i, j - 1);
      HoldsNoSlot(s, i);
    }
  }

  lemma HoldsNoSlot(s: State, i: nat)
    requires i < |s.pcs| && SlotHolders(s) == {} && Acquired(s.pcs[i])
    ensures s.pcs[i].Finished?
  {
    assert i !in SlotHolders(s);
  }

  lemma ApplyKeepsOneAtATime(cfg: Config, s: State, e: Event)
    requires Inv(cfg, s) && cfg.maxParallel == 1 && OneAtATime(s) && Enabled(cfg, s, e)
    ensures OneAtATime(Apply(cfg, s, e))
  {
    PcMoves(cfg, s, e);
    if e.Acquire? {
      AcquireWithOneSlot(cfg, s, e.i);
    }
    OneMoves(s, Apply(cfg, s, e), e.i);
  }

  lemma OneMoves(s: State, s': State, i: nat)
    requires OneAtATime(s) && i < |s.pcs| == |s'.pcs| && s'.pcs == s.pcs[i := s'.pcs[i]]
    requires Acquired(s'.pcs[i]) ==> Acquired(s.pcs[i]) || forall k :: 0 <= k < i ==> s.pcs[k].Finished?
    requires s.pcs[i].Finished? ==> s'.pcs[i].Finished?
    ensures OneAtATime(s')
  {
  }

  /** results' differs from results at i only, and there only by recording a failure or a skip. */
  lemma FailedBeforeGrows(s: State, s': State, i: nat, k: nat)
    requires |s.results| == |s'.results| && i < |s.results| && k <= |s.results|
    requires s'.results == s.results[i := s'.results[i]]
    requires s.results[i] == Ran(Failed) ==> s'.results[i] == Ran(Failed)
    ensures FailedBefore(s, k) ==> FailedBefore(s', k)
    ensures FailedBefore(s', k) ==>
            FailedBefore(s, k) || (i < k && s.results[i] != Ran(Failed) && s'.results[i] == Ran(Failed))
  {
    if FailedBefore(s, k) {
      var j :| 0 <= j < k && s.results[j] == Ran(Failed);
      assert s'.results[j] == Ran(Failed);
    }
  }

  lemma CheckStaysInOrder(cfg: Config, s: State, k: nat)
    requires Shaped(cfg, s) && ResultsFit(s) && Flags(cfg, s) && OneAtATime(s) && Enabled(cfg, s, Check(k))
    ensures s.stop ==> FailedBefore(s, k)
    ensures !s.stop && cfg.failFast ==> !FailedBefore(s, k)
  {
    if s.stop {
      var j :| 0 <= j < cfg.n && s.results[j] == Ran(Failed);
      assert Acquired(s.pcs[j]) && !s.pcs[k].Finished? && s.results[k].Pending?;
      assert j < k;
    }
  }

  /** When a failure is recorded, nothing behind it has started. */
  lemma RecordStaysInOrder(cfg: Config, s: State, i: nat, k: nat)
    requires Shaped(cfg, s) && ResultsFit(s) && OneAtATime(s) && Enabled(cfg, s, Record(i)) && i < k < cfg.n
    ensures !Started(s, k)
  {
    if Started(s, k) {
      assert Acquired(s.pcs[k]);
    }
  }

  /** The combination an event belongs to: it is skipped only behind a failure and started only ahead of one. */
  lemma OwnStaysInOrder(cfg: Config, s: State, e: Event)
    requires Shaped(cfg, s) && ResultsFit(s) && Flags(cfg, s) && OneAtATime(s) && Enabled(cfg, s, e) &&
             InOrderAt(cfg, s, e.i)
    ensures InOrderAt(cfg, Apply(cfg, s, e), e.i)
  {
    Effects(cfg, s, e);
    FailedBeforeGrows(s, Apply(cfg, s, e), e.i, e.i);
    if e.Check? {
      CheckStaysInOrder(cfg, s, e.i);
    }
  }

  /** Any other combination: only a recorded failure in front of it matters, and then it has not started. */
  lemma OthersStayInOrder(cfg: Config, s: State, e: Event, k: nat)
    requires Shaped(cfg, s) && ResultsFit(s) && OneAtATime(s) && Enabled(cfg, s, e)
    requires k < cfg.n && k != e.i && InOrderAt(cfg, s, k)
    ensures InOrderAt(cfg, Apply(cfg, s, e), k)
  {
    Effects(cfg, s, e);
    FailedBeforeGrows(s, Apply(cfg, s, e), e.i, k);
    if e.Record? && e.i < k {
      RecordStaysInOrder(cfg, s, e.i, k);
    }
  }

  lemma ApplyKeepsInOrder(cfg: Config, s: State, e: Event)
    requires Inv(cfg, s) && OneAtATime(s) && InOrder(cfg, s) && Enabled(cfg, s, e)
    ensures InOrder(cfg, Apply(cfg, s, e))
  {
    forall k: nat | k < cfg.n ensures InOrderAt(cfg, Apply(cfg, s, e), k) {
      assert InOrderAt(cfg, s, k);
      if k == e.i {
        OwnStaysInOrder(cfg, s, e);
      } else {
        OthersStayInOrder(cfg, s, e, k);
      }
    }
  }

  lemma {:induction false} OneSlotInOrder(cfg: Config, s: State, es: seq<Event>)
    requires Inv(cfg, s) && cfg.maxParallel == 1 && OneAtATime(s) && InOrder(cfg, s) && CanRun(cfg, s, es)
    ensures InOrder(cfg, Run(cfg, s, es))
    decreases es
  {
    if es != [] {
      ApplyKeepsInv(cfg, s, es[0]);
      ApplyKeepsOneAtATime(cfg, s, es[0]);
      ApplyKeepsInOrder(cfg, s, es[0]);
      OneSlotInOrder(cfg, Apply(cfg, s, es[0]), es[1..]);
    }
  }

  /** The verdicts agree with every combination that ran; what a skipped one would have come to is free. */
  predicate Agrees(results: seq<Outcome>, verdicts: seq<Verdict>) {
    |results| == |verdicts| && forall i :: 0 <= i < |results| && results[i].Ran? ==> results[i].v == verdicts[i]
  }

  predicate SkipsFollowFailure(results: seq<Outcome>, failFast: bool) {
    forall i: nat :: i < |results| ==>
      !results[i].Pending? && (results[i].Skipped? <==> failFast && FailedIn(results, i))
  }

  lemma {:induction false} SuffixIsSequential(results: seq<Outcome>, verdicts: seq<Verdict>, failFast: bool, i: nat)
    requires Agrees(results, verdicts) && SkipsFollowFailure(results, failFast) && i <= |results|
    ensures results[i..] == Sequential(verdicts[i..], failFast, failFast && FailedIn(results, i))
    decreases |results| - i
  {
    if i < |results| {
      SuffixIsSequential(results, verdicts, failFast, i + 1);
      assert FailedIn(results, i + 1) <==> FailedIn(results, i) || results[i] == Ran(Failed);
      assert verdicts[i..][0] == verdicts[i] && verdicts[i..][1..] == verdicts[i + 1..];
      assert results[i..] == [results[i]] + results[i + 1..];
    }
  }

  lemma FinalOrder(cfg: Config, s: State, i: nat)
    requires Inv(cfg, s) && AllFinished(s) && i < cfg.n
    requires !cfg.failFast || InOrderAt(cfg, s, i)
    ensures !s.results[i].Pending?
    ensures s.results[i].Skipped? <==> cfg.failFast && FailedBefore(s, i)
  {
    assert s.pcs[i].Finished?;
    assert s.results[i].Ran? ==> Started(s, i);
    assert s.results[i].Skipped? ==> s.stop;
  }

  /**
    With one slot, or without fail-fast, every complete interleaving leaves the results of the
    sequential loop: the combinations after the first failure are skipped, no others.
   */
  lemma OneSlotIsSequential(cfg: Config, es: seq<Event>, verdicts: seq<Verdict>)
    requires ValidConfig(cfg) && (cfg.maxParallel == 1 || !cfg.failFast)
    requires CanRun(cfg, Init(cfg), es) && AllFinished(Run(cfg, Init(cfg), es))
    requires Agrees(Run(cfg, Init(cfg), es).results, verdicts)
    ensures Run(cfg, Init(cfg), es).results == Sequential(verdicts, cfg.failFast, false)
  {
    var s := Run(cfg, Init(cfg), es);
    InitInv(cfg);
    RunKeepsInv(cfg, Init(cfg), es);
    if cfg.failFast {
      OneSlotInOrder(cfg, Init(cfg), es);
    }
    forall i: nat | i < cfg.n
      ensures !s.results[i].Pending? && (s.results[i].Skipped? <==> cfg.failFast && FailedIn(s.results, i))
    {
      FinalOrder(cfg, s, i);
    }
    SuffixIsSequential(s.results, verdicts, cfg.failFast, 0);
    assert s.results[0..] == s.results && verdicts[0..] == verdicts;
  }

  // ----- two slots: it need not be -----

  /** The combination's job ran to a verdict. */
  predicate RanToVerdict(r: Outcome) {
    r == Ran(Succeeded) || r == Ran(Failed)
  }

  /** A lower combination is skipped although a higher one's job ran. */
  ghost predicate CanOvertake(cfg: Config) {
    exists s, i: nat, j: nat ::
      Reachable(cfg, s) && i < j < cfg.n && s.results[i].Skipped? && RanToVerdict(s.results[j])
  }

  /** Combination 0 stands at the check with its slot; those from k on have not begun; the scheduler is untouched. */
  predicate FirstWaits(cfg: Config, s: State, k: nat) {
    && Shaped(cfg, s) && 1 <= k <= cfg.n && s.pcs[0].CheckStop? && !s.stop && s.sem == 1 && s.sched == S.FRESH
    && (forall i :: k <= i < cfg.n ==> s.pcs[i].AwaitTurn?) && (k < cfg.n ==> s.gates[k - 1])
  }

  lemma FirstTakesSlot(cfg: Config) returns (s: State)
    requires ValidConfig(cfg) && cfg.n >= 1
    ensures Reachable(cfg, s) && FirstWaits(cfg, s, 1)
  {
    TakesSlot(cfg, Init(cfg), 0);
    s := WithSlot(cfg, Init(cfg), 0);
  }

  /** Combination k's group name cannot be evaluated: it errs and is gone. */
  lemma OneTurnedAway(cfg: Config, s: State, k: nat) returns (s': State)
    requires FirstWaits(cfg, s, k) && k < cfg.n && cfg.maxParallel >= 2 && GroupFails(cfg, k)
    ensures RunsTo(cfg, s, s') && FirstWaits(cfg, s', k + 1)
  {
    TakesSlot(cfg, s, k);
    var t := WithSlot(cfg, s, k);
    TurnsAway(cfg, t, k);
    s' := TurnedAway(cfg, t, k);
    RunsOn(cfg, s, t, s');
  }

  lemma {:induction false} AllTurnedAway(cfg: Config, s: State, k: nat, j: nat) returns (s': State)
    requires FirstWaits(cfg, s, k) && k <= j < cfg.n && cfg.maxParallel >= 2
    requires forall i :: k <= i < j ==> GroupFails(cfg, i)
    ensures RunsTo(cfg, s, s') && FirstWaits(cfg, s', j)
    decreases j - k
  {
    if k == j {
      RunsNowhere(cfg, s);
      s' := s;
    } else {
      var t := OneTurnedAway(cfg, s, k);
      s' := AllTurnedAway(cfg, t, k + 1, j);
      RunsOn(cfg, s, t, s');
    }
  }

  /** Combination j runs and fails while combination 0 stands at the check. */
  lemma LaterOneFails(cfg: Config, s: State, j: nat) returns (s': State)
    requires FirstWaits(cfg, s, j) && j < cfg.n && cfg.maxParallel >= 2 && cfg.failFast && !GroupFails(cfg, j)
    ensures RunsTo(cfg, s, s') && Shaped(cfg, s')
    ensures s'.pcs[0].CheckStop? && s'.stop && s'.results[j] == Ran(Failed)
  {
    TakesSlot(cfg, s, j);
    var t := WithSlot(cfg, s, j);
    Enters(cfg, t, j);
    var u := Entered(cfg, t, j);
    RunsOn(cfg, s, t, u);
    Concludes(cfg, u, j, Failed);
    s' := Concluded(cfg, u, j, Failed);
    RunsOn(cfg, s, u, s');
  }

  /** With two slots, a combination after the first whose group name evaluates can stop the first one. */
  lemma Overtaking(cfg: Config, j: nat) returns (s: State)
    requires ValidConfig(cfg) && cfg.failFast && cfg.maxParallel >= 2 && 1 <= j < cfg.n && !GroupFails(cfg, j)
    requires forall i :: 1 <= i < j ==> GroupFails(cfg, i)
    ensures Reachable(cfg, s) && s.results[0].Skipped? && s.results[j] == Ran(Failed)
  {
    var s1 := FirstTakesSlot(cfg);
    var s2 := AllTurnedAway(cfg, s1, 1, j);
    RunsOn(cfg, Init(cfg), s1, s2);
    var s3 := LaterOneFails(cfg, s2, j);
    RunsOn(cfg, Init(cfg), s2, s3);
    ThenEvent(cfg, Init(cfg), s3, Check(0));
    s := Apply(cfg, s3, Check(0));
  }

  lemma FirstGood(cfg: Config, j: nat) returns (k: nat)
    requires 1 <= j < |cfg.groups| && !GroupFails(cfg, j)
    ensures 1 <= k <= j && !GroupFails(cfg, k) && forall i :: 1 <= i < k ==> GroupFails(cfg, i)
  {
    k := 1;
    while GroupFails(cfg, k)
      invariant 1 <= k <= j && forall i :: 1 <= i < k ==> GroupFails(cfg, i)
      decreases j - k
    {
      k := k + 1;
    }
  }

  /** Only a combination whose group name evaluates gets as far as running. */
  predicate RunnersGood(cfg: Config, s: State)
    requires Shaped(cfg, s)
  {
    forall i :: 0 <= i < cfg.n && (InGroup(s.pcs[i]) || RanToVerdict(s.results[i])) ==> !GroupFails(cfg, i)
  }

  lemma ApplyKeepsRunnersGood(cfg: Config, s: State, e: Event)
    requires Shaped(cfg, s) && RunnersGood(cfg, s) && Enabled(cfg, s, e)
    ensures RunnersGood(cfg, Apply(cfg, s, e))
  {
    RunnerMoves(cfg, s, e);
  }

  lemma RunnerMoves(cfg: Config, s: State, e: Event)
    requires Shaped(cfg, s) && Enabled(cfg, s, e)
    ensures var s' := Apply(cfg, s, e);
            && s'.pcs == s.pcs[e.i := s'.pcs[e.i]] && s'.results == s.results[e.i := s'.results[e.i]]
            && (InGroup(s'.pcs[e.i]) || RanToVerdict(s'.results[e.i]) ==>
              InGroup(s.pcs[e.i]) || RanToVerdict(s.results[e.i]) || !GroupFails(cfg, e.i))
  {
  }

  lemma {:induction false} RunKeepsRunnersGood(cfg: Config, s: State, es: seq<Event>)
    requires Shaped(cfg, s) && RunnersGood(cfg, s) && CanRun(cfg, s, es)
    ensures RunnersGood(cfg, Run(cfg, s, es))
    decreases es
  {
    if es != [] {
      ApplyKeepsRunnersGood(cfg, s, es[0]);
      RunKeepsRunnersGood(cfg, Apply(cfg, s, es[0]), es[1..]);
    }
  }

  lemma OvertakingNeeds(cfg: Config, s: State, i: nat, j: nat)
    requires ValidConfig(cfg) && Reachable(cfg, s)
    requires i < j < cfg.n && s.results[i].Skipped? && RanToVerdict(s.results[j])
    ensures cfg.failFast && cfg.maxParallel >= 2 && !GroupFails(cfg, j)
  {
    var es :| CanRun(cfg, Init(cfg), es) && Run(cfg, Init(cfg), es) == s;
    RunKeepsRunnersGood(cfg, Init(cfg), es);
    ReachableInv(cfg, s);
    assert s.stop;
    if cfg.maxParallel == 1 {
      InitInv(cfg);
      OneSlotInOrder(cfg, Init(cfg), es);
      NeverOvertakes(cfg, s, i, j);
    }
  }

  lemma NeverOvertakes(cfg: Config, s: State, i: nat, j: nat)
    requires Shaped(cfg, s) && InOrder(cfg, s) && cfg.failFast && i < j < cfg.n && s.results[i].Skipped?
    ensures !s.results[j].Ran?
  {
    assert InOrderAt(cfg, s, i) && InOrderAt(cfg, s, j);
    var k :| 0 <= k < i && s.results[k] == Ran(Failed);
    assert FailedBefore(s, j);
  }

  /**
    A combination can be skipped although a later one's job ran iff the job fails fast, has at least
    two slots, and some combination after the first has a group name that evaluates.
   */
  lemma OvertakingIff(cfg: Config)
    requires ValidConfig(cfg)
    ensures CanOvertake(cfg) <==>
              cfg.failFast && cfg.maxParallel >= 2 && exists j :: 1 <= j < cfg.n && !GroupFails(cfg, j)
  {
    if CanOvertake(cfg) {
      var s, i: nat, j: nat :|
        Reachable(cfg, s) && i < j < cfg.n && s.results[i].Skipped? && RanToVerdict(s.results[j]);
      OvertakingNeeds(cfg, s, i, j);
    }
    if cfg.failFast && cfg.maxParallel >= 2 && exists j :: 1 <= j < cfg.n && !GroupFails(cfg, j) {
      var j :| 1 <= j < cfg.n && !GroupFails(cfg, j);
      var k := FirstGood(cfg, j);
      var s := Overtaking(cfg, k);
      assert 0 < k < cfg.n && s.results[0].Skipped? && RanToVerdict(s.results[k]);
    }
  }

  // ----- what wg.Wait leaves behind -----

  /** What the loop over comboFailed finds. */
  predicate AnyFailed(results: seq<Outcome>) {
    exists i :: 0 <= i < |results| && results[i] == Ran(Failed)
  }

  /**
    Without an error, a job's pool records no failure iff every combination ran and succeeded: a
    skip implies a failure.
   */
  lemma NoFailureMeansAllRan(cfg: Config, es: seq<Event>)
    requires ValidConfig(cfg) && CanRun(cfg, Init(cfg), es) && AllFinished(Run(cfg, Init(cfg), es))
    ensures var s := Run(cfg, Init(cfg), es);
            !s.firstErr ==> (!AnyFailed(s.results) <==> forall i :: 0 <= i < cfg.n ==> s.results[i] == Ran(Succeeded))
  {
    InitInv(cfg);
    RunKeepsInv(cfg, Init(cfg), es);
    var s := Run(cfg, Init(cfg), es);
    if !s.firstErr && !AnyFailed(s.results) {
      forall i | 0 <= i < cfg.n ensures s.results[i] == Ran(Succeeded) {
        assert s.pcs[i].Finished? && !s.results[i].Pending?;
        assert !s.results[i].Skipped? && s.results[i] != Ran(Errored) && s.results[i] != Ran(Failed);
        OnlySuccessLeft(s.results[i]);
      }
    }
  }

  /** The other way round: a pool whose combinations all succeeded recorded neither an error nor a failure. */
  lemma AllSucceededMeansNoError(cfg: Config, es: seq<Event>)
    requires ValidConfig(cfg) && CanRun(cfg, Init(cfg), es)
    requires forall i :: 0 <= i < cfg.n ==> Run(cfg, Init(cfg), es).results[i] == Ran(Succeeded)
    ensures !Run(cfg, Init(cfg), es).firstErr && !AnyFailed(Run(cfg, Init(cfg), es).results)
  {
    InitInv(cfg);
    RunKeepsInv(cfg, Init(cfg), es);
  }

  lemma OnlySuccessLeft(r: Outcome)
    requires !r.Pending? && !r.Skipped? && r != Ran(Errored) && r != Ran(Failed)
    ensures r == Ran(Succeeded)
  {
    match r.v {
      case Errored =>
      case Succeeded =>
      case Failed =>
    }
  }
}
