/** The pool never deadlocks and every run of it is finite, so wg.Wait returns once every RunJob has. */
module PoolProgress {
  import opened Pool
  import S = Scheduler

  // ----- some event is always enabled -----

  /** A goroutine that is past its gate, and not waiting for a group token, can move. */
  lemma BusyMoves(cfg: Config, s: State, i: nat) returns (e: Event)
    requires Inv(cfg, s) && i < cfg.n && HoldsSlot(s.pcs[i]) && !s.pcs[i].WantGroup?
    ensures Enabled(cfg, s, e) && !e.Expire?
  {
    match s.pcs[i] {
      case OpenGate => e := Open(i);
      case CheckStop => e := Check(i);
      case Running => e := Return(i, Succeeded);
      case Recording(_) => e := Record(i);
      case LeaveGroup =>
        S.ReleaseNeverBlocks(s.sched, i);
        e := Exit(i);
      case LeaveSlot =>
        assert i in SlotHolders(s);
        e := Free(i);
    }
  }

  /** Someone at acquire can move, or the token's holder can: a holder never waits for a slot or a second token. */
  lemma WaiterMoves(cfg: Config, s: State, i: nat) returns (e: Event)
    requires Inv(cfg, s) && i < cfg.n && s.pcs[i].WantGroup?
    ensures Enabled(cfg, s, e) && !e.Expire?
  {
    e := Enter(i, true);
    if !Enabled(cfg, s, e) {
      var holder := S.FullChannelHasHolder(s.sched, cfg.groups[i].name);
      e := BusyMoves(cfg, s, holder);
    }
  }

  /** With every slot free, the lowest unfinished combination can move. */
  lemma LowestMoves(cfg: Config, s: State, i: nat) returns (e: Event)
    requires Inv(cfg, s) && i < cfg.n && !s.pcs[i].Finished?
    requires SlotHolders(s) == {}
    requires forall j :: 0 <= j < i ==> s.pcs[j].Finished?
    ensures Enabled(cfg, s, e) && !e.Expire?
  {
    assert i !in SlotHolders(s);
    e := if s.pcs[i].AwaitTurn? then Turn(i) else Acquire(i);
  }

  lemma Lowest(s: State, i: nat) returns (k: nat)
    requires i < |s.pcs| && !s.pcs[i].Finished?
    ensures k < |s.pcs| && !s.pcs[k].Finished? && forall j :: 0 <= j < k ==> s.pcs[j].Finished?
  {
    k := 0;
    while s.pcs[k].Finished?
      invariant k <= i && forall j :: 0 <= j < k ==> s.pcs[j].Finished?
      decreases i - k
    {
      k := k + 1;
    }
  }

  lemma SomeEvent(cfg: Config, s: State) returns (e: Event)
    requires Inv(cfg, s) && !AllFinished(s)
    ensures Enabled(cfg, s, e) && !e.Expire?
  {
    if SlotHolders(s) != {} {
      var i :| i in SlotHolders(s);
      if s.pcs[i].WantGroup? {
        e := WaiterMoves(cfg, s, i);
      } else {
        e := BusyMoves(cfg, s, i);
      }
    } else {
      var i: nat :| i < |s.pcs| && !s.pcs[i].Finished?;
      var k := Lowest(s, i);
      e := LowestMoves(cfg, s, k);
    }
  }

  /** Deadlock freedom: a reachable state with an unfinished combination has an enabled event other than a timeout. */
  lemma NoDeadlock(cfg: Config, es: seq<Event>)
    requires ValidConfig(cfg) && CanRun(cfg, Init(cfg), es) && !AllFinished(Run(cfg, Init(cfg), es))
    ensures exists e :: Enabled(cfg, Run(cfg, Init(cfg), es), e) && !e.Expire?
  {
    InitInv(cfg);
    RunKeepsInv(cfg, Init(cfg), es);
    var e := SomeEvent(cfg, Run(cfg, Init(cfg), es));
  }

  // ----- every event makes progress -----

  function Rank(pc: Pc): nat {
    match pc
    case AwaitTurn => 9
    case WantSlot => 8
    case OpenGate => 7
    case CheckStop => 6
    case WantGroup => 5
    case Running => 4
    case Recording(_) => 3
    case LeaveGroup => 2
    case LeaveSlot => 1
    case Finished => 0
  }

  function TotalRank(pcs: seq<Pc>): nat {
    if pcs == [] then 0 else Rank(pcs[0]) + TotalRank(pcs[1..])
  }

  lemma {:induction false} TotalRankUpdate(pcs: seq<Pc>, i: nat, pc: Pc)
    requires i < |pcs|
    ensures TotalRank(pcs[i := pc]) == TotalRank(pcs) - Rank(pcs[i]) + Rank(pc)
  {
    if i == 0 {
      assert pcs[0 := pc][1..] == pcs[1..];
    } else {
      TotalRankUpdate(pcs[1..], i - 1, pc);
      assert pcs[i := pc][1..] == pcs[1..][i - 1 := pc];
    }
  }

  lemma {:induction false} TotalRankInit(n: nat)
    ensures TotalRank(seq(n, _ => AwaitTurn)) == 9 * n
  {
    if n > 0 {
      assert seq(n, _ => AwaitTurn)[1..] == seq(n - 1, _ => AwaitTurn);
      TotalRankInit(n - 1);
    }
  }

  /** Ranks still to descend, plus the timeouts that can still fire. */
  function Measure(cfg: Config, s: State): int {
    TotalRank(s.pcs) + cfg.n - |s.sched.done|
  }

  lemma {:induction false} BoundedSize(xs: set<nat>, n: nat)
    requires forall x :: x in xs ==> x < n
    ensures |xs| <= n
  {
    if n == 0 {
      assert xs == {};
    } else {
      BoundedSize(xs - {n - 1}, n - 1);
      assert xs <= (xs - {n - 1}) + {n - 1};
      S.SubsetSize(xs, (xs - {n - 1}) + {n - 1});
    }
  }

  lemma RankFalls(cfg: Config, s: State, e: Event)
    requires Shaped(cfg, s) && Enabled(cfg, s, e) && !e.Expire?
    ensures Rank(Apply(cfg, s, e).pcs[e.i]) < Rank(s.pcs[e.i])
    ensures Apply(cfg, s, e).pcs == s.pcs[e.i := Apply(cfg, s, e).pcs[e.i]]
  {
  }

  lemma DoneGrows(cfg: Config, s: State, e: Event)
    requires Shaped(cfg, s) && S.EntriesCurrent(s.sched) && Enabled(cfg, s, e)
    ensures |s.sched.done| <= |Apply(cfg, s, e).sched.done|
    ensures e.Expire? ==> |s.sched.done| < |Apply(cfg, s, e).sched.done|
  {
    var op := SchedOp(cfg, s, e);
    if op.Some? {
      S.ApplyHolds(s.sched, op.value);
      S.SubsetSize(s.sched.done, Apply(cfg, s, e).sched.done);
    }
  }

  lemma MeasureFalls(cfg: Config, s: State, e: Event)
    requires Shaped(cfg, s) && S.EntriesCurrent(s.sched) && Enabled(cfg, s, e)
    ensures Measure(cfg, Apply(cfg, s, e)) < Measure(cfg, s)
  {
    DoneGrows(cfg, s, e);
    if !e.Expire? {
      RankFalls(cfg, s, e);
      TotalRankUpdate(s.pcs, e.i, Apply(cfg, s, e).pcs[e.i]);
    }
  }

  lemma DoneBounded(cfg: Config, s: State)
    requires Inv(cfg, s)
    ensures |s.sched.done| <= cfg.n
  {
    BoundedSize(s.sched.done, cfg.n);
  }

  lemma {:induction false} RunMeasure(cfg: Config, s: State, es: seq<Event>)
    requires Inv(cfg, s) && CanRun(cfg, s, es)
    ensures |es| <= Measure(cfg, s) - Measure(cfg, Run(cfg, s, es))
    decreases es
  {
    if es != [] {
      MeasureFalls(cfg, s, es[0]);
      ApplyKeepsInv(cfg, s, es[0]);
      RunMeasure(cfg, Apply(cfg, s, es[0]), es[1..]);
    }
  }

  /** Termination: whatever the interleaving, a pool of n combinations takes at most 10n steps. */
  lemma RunsAreFinite(cfg: Config, es: seq<Event>)
    requires ValidConfig(cfg) && CanRun(cfg, Init(cfg), es)
    ensures |es| <= 10 * cfg.n
  {
    InitInv(cfg);
    RunMeasure(cfg, Init(cfg), es);
    RunKeepsInv(cfg, Init(cfg), es);
    DoneBounded(cfg, Run(cfg, Init(cfg), es));
    TotalRankInit(cfg.n);
  }

  /** The run es takes the pool from s to the point where every goroutine has called wg.Done. */
  predicate Finishes(cfg: Config, s: State, es: seq<Event>)
    requires Shaped(cfg, s)
  {
    CanRun(cfg, s, es) && AllFinished(Run(cfg, s, es))
  }

  lemma FinishesAfter(cfg: Config, s: State, e: Event, rest: seq<Event>)
    requires Shaped(cfg, s) && Enabled(cfg, s, e) && Finishes(cfg, Apply(cfg, s, e), rest)
    ensures Finishes(cfg, s, [e] + rest)
  {
    assert ([e] + rest)[1..] == rest;
  }

  /** Together: any run can be continued to the point where wg.Wait returns. */
  lemma {:induction false} EveryRunCanFinish(cfg: Config, s: State)
    requires Inv(cfg, s)
    ensures exists es :: Finishes(cfg, s, es)
    decreases Measure(cfg, s) + cfg.n
  {
    if AllFinished(s) {
      assert Finishes(cfg, s, []);
    } else {
      var e := SomeEvent(cfg, s);
      MeasureFalls(cfg, s, e);
      ApplyKeepsInv(cfg, s, e);
      DoneBounded(cfg, Apply(cfg, s, e));
      DoneBounded(cfg, s);
      EveryRunCanFinish(cfg, Apply(cfg, s, e));
      var rest :| Finishes(cfg, Apply(cfg, s, e), rest);
      FinishesAfter(cfg, s, e, rest);
    }
  }
}
