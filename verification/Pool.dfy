/**
  The goroutine pool RunWorkflow starts for one job: N matrix combinations chained by starts[i],
  a counting semaphore, the fail-fast flag and the concurrency-group scheduler.

  A state holds one program counter per combination; an event is one atomic step of one goroutine
  (a channel operation, a critical section, or RunJob returning). RunJob itself is the
  nondeterministic verdict of a Return event, and a timeout is an Expire event.
 */
module Pool {
  import opened Outcomes
  import S = Scheduler

  datatype Mode = NoConcurrency | Queueing | CancelInProgress
  datatype GroupName = BadGroup | Group(name: string)   // the evaluated group, or an evaluation error
  datatype Verdict = Errored | Succeeded | Failed       // what RunJob, or selectBackend before it, comes to

  datatype Config = Config(n: nat, maxParallel: nat, failFast: bool, timeout: bool, mode: Mode, groups: seq<GroupName>)

  predicate ValidConfig(cfg: Config) {
    cfg.maxParallel >= 1 && |cfg.groups| == cfg.n
  }

  /** The number of semaphore slots: max-parallel or 4, at most one per combination, at least one. */
  function EffectiveParallel(requested: int, combos: nat): (r: nat)
    ensures 1 <= r && (combos > 0 ==> r <= combos)
    ensures 1 <= requested <= combos ==> r == requested
    ensures combos > 0 && (requested > combos || (requested <= 0 && combos <= 4)) ==> r == combos
    ensures requested <= 0 && combos >= 4 ==> r == 4
    ensures combos == 0 ==> r == 1
  {
    var wanted := if requested > 0 then requested else 4;
    var capped := if combos < wanted then combos else wanted;
    if capped < 1 then 1 else capped
  }

  datatype Pc =
    | AwaitTurn        // until the predecessor has its slot
    | WantSlot         // until the semaphore has room
    | OpenGate         // about to let its successor try for a slot
    | CheckStop        // about to look at the fail-fast flag
    | WantGroup        // about to evaluate the group name and to ask the scheduler in
    | Running          // choosing a backend and running the job
    | Recording(v: Verdict)
    | LeaveGroup       // about to call the release closure
    | LeaveSlot        // about to give the slot back
    | Finished

  datatype Outcome = Pending | Skipped | Ran(v: Verdict)

  datatype State = State(
    pcs: seq<Pc>,
    gates: seq<bool>,      // starts[i] has been closed
    sem: nat,
    stop: bool,             // stopStartingNew
    firstErr: bool,
    results: seq<Outcome>,  // comboSkipped, comboFailed and comboSteps
    sched: S.State)

  function Init(cfg: Config): State {
    State(seq(cfg.n, _ => AwaitTurn), seq(cfg.n, _ => false), 0, false, false, seq(cfg.n, _ => Pending), S.FRESH)
  }

  datatype Event =
    | Turn(i: nat) | Acquire(i: nat) | Open(i: nat) | Check(i: nat)
    | Enter(i: nat, byToken: bool) | Return(i: nat, v: Verdict) | Record(i: nat)
    | Exit(i: nat) | Free(i: nat) | Expire(i: nat)

  predicate HoldsSlot(pc: Pc) {
    !pc.AwaitTurn? && !pc.WantSlot? && !pc.Finished?
  }

  predicate InGroup(pc: Pc) {
    pc.Running? || pc.Recording? || pc.LeaveGroup?
  }

  /** The scheduler operation an Enter event performs, if the group name could be evaluated. */
  function EnterOp(cfg: Config, i: nat, byToken: bool): S.Op
    requires i < |cfg.groups| && (cfg.groups[i].Group? || cfg.mode == NoConcurrency)
  {
    if cfg.mode == NoConcurrency || cfg.groups[i].name == "" then S.Pass(i)
    else if cfg.mode == Queueing then S.Queue(i, cfg.groups[i].name, byToken)
    else S.Preempt(i, cfg.groups[i].name)
  }

  predicate GroupFails(cfg: Config, i: nat)
    requires i < |cfg.groups|
  {
    cfg.mode != NoConcurrency && cfg.groups[i].BadGroup?
  }

  predicate Shaped(cfg: Config, s: State) {
    |s.pcs| == |s.gates| == |s.results| == |cfg.groups| == cfg.n
  }

  predicate Enabled(cfg: Config, s: State, e: Event)
    requires Shaped(cfg, s)
  {
    e.i < cfg.n &&
    match e
    case Turn(i) => s.pcs[i].AwaitTurn? && (i == 0 || s.gates[i - 1])
    case Acquire(i) => s.pcs[i].WantSlot? && s.sem < cfg.maxParallel
    case Open(i) => s.pcs[i].OpenGate?
    case Check(i) => s.pcs[i].CheckStop?
    case Enter(i, byToken) =>
      s.pcs[i].WantGroup? && (GroupFails(cfg, i) || S.Enabled(s.sched, EnterOp(cfg, i, byToken)))
    case Return(i, _) => s.pcs[i].Running?
    case Record(i) => s.pcs[i].Recording?
    case Exit(i) => s.pcs[i].LeaveGroup? && S.ReleaseReady(s.sched, i)
    case Free(i) => s.pcs[i].LeaveSlot? && s.sem > 0
    case Expire(i) => cfg.timeout && (s.pcs[i].WantGroup? || InGroup(s.pcs[i])) && i !in s.sched.done
  }

  function At(s: State, i: nat, pc: Pc): State
    requires i < |s.pcs|
  {
    s.(pcs := s.pcs[i := pc])
  }

  function Apply(cfg: Config, s: State, e: Event): (s': State)
    requires Shaped(cfg, s) && Enabled(cfg, s, e)
    ensures Shaped(cfg, s')
  {
    match e
    case Turn(i) => At(s, i, WantSlot)
    case Acquire(i) => At(s, i, OpenGate).(sem := s.sem + 1)
    case Open(i) => At(s, i, CheckStop).(gates := s.gates[i := i + 1 < cfg.n])
    case Check(i) =>
      if s.stop then At(s, i, LeaveSlot).(results := s.results[i := Outcome.Skipped])
      else At(s, i, WantGroup)
    case Enter(i, byToken) =>
      if GroupFails(cfg, i) then At(s, i, LeaveSlot).(firstErr := true, results := s.results[i := Ran(Errored)])
      else At(s, i, Running).(sched := S.Apply(s.sched, EnterOp(cfg, i, byToken)))
    case Return(i, v) => At(s, i, Recording(v))
    case Record(i) =>
      var v := s.pcs[i].v;
      At(s, i, LeaveGroup).(
        firstErr := s.firstErr || v == Errored,
        stop := s.stop || (v == Failed && cfg.failFast),
        results := s.results[i := Ran(v)])
    case Exit(i) => At(s, i, LeaveSlot).(sched := S.Leave(s.sched, i))
    case Free(i) => At(s, i, Finished).(sem := s.sem - 1)
    case Expire(i) => s.(sched := S.Apply(s.sched, S.Expire(i)))
  }

  predicate CanRun(cfg: Config, s: State, es: seq<Event>)
    requires Shaped(cfg, s)
    decreases es
  {
    es == [] || (Enabled(cfg, s, es[0]) && CanRun(cfg, Apply(cfg, s, es[0]), es[1..]))
  }

  function Run(cfg: Config, s: State, es: seq<Event>): (s': State)
    requires Shaped(cfg, s) && CanRun(cfg, s, es)
    ensures Shaped(cfg, s')
    decreases es
  {
    if es == [] then s else Run(cfg, Apply(cfg, s, es[0]), es[1..])
  }

  predicate AllFinished(s: State) {
    forall i :: 0 <= i < |s.pcs| ==> s.pcs[i].Finished?
  }

  // ----- the invariant -----

  predicate Acquired(pc: Pc) {
    !pc.AwaitTurn? && !pc.WantSlot?
  }

  /**
    starts[i] is closed exactly by a goroutine past its gate, and nobody leaves AwaitTurn before its
    predecessor's gate opens.
   */
  predicate PastGate(pc: Pc) {
    Acquired(pc) && !pc.OpenGate?
  }

  predicate Gates(pcs: seq<Pc>, gates: seq<bool>)
    requires |pcs| == |gates|
  {
    && (forall i :: 0 <= i < |pcs| - 1 ==> (gates[i] <==> PastGate(pcs[i])))
    && (forall i :: 0 < i < |pcs| ==> pcs[i].AwaitTurn? || gates[i - 1])
  }

  function SlotHolders(s: State): set<nat> {
    set i: nat | i < |s.pcs| && HoldsSlot(s.pcs[i])
  }

  predicate Slots(cfg: Config, s: State) {
    s.sem == |SlotHolders(s)| <= cfg.maxParallel
  }

  /** Results are written once, when a combination is skipped, errs or is recorded. */
  predicate ResultsFit(s: State)
    requires |s.pcs| == |s.results|
  {
    forall i :: 0 <= i < |s.pcs| ==>
      && (s.results[i].Pending? <==> !s.pcs[i].LeaveGroup? && !s.pcs[i].LeaveSlot? && !s.pcs[i].Finished?)
      && (s.pcs[i].LeaveGroup? ==> s.results[i].Ran?)
  }

  predicate Flags(cfg: Config, s: State) {
    && (s.stop <==> cfg.failFast && exists i :: 0 <= i < |s.results| && s.results[i] == Ran(Failed))
    && (s.firstErr <==> exists i :: 0 <= i < |s.results| && s.results[i] == Ran(Errored))
    && (forall i :: 0 <= i < |s.results| && s.results[i].Skipped? ==> s.stop)
  }

  /** Release closures are outstanding exactly for the goroutines between acquire and release. */
  ghost predicate HoldsFit(pcs: seq<Pc>, holds: map<nat, S.Hold>, done: set<nat>) {
    && (forall i: nat :: i in holds <==> i < |pcs| && InGroup(pcs[i]))
    && (forall i: nat :: i in done ==> i < |pcs|)
  }

  ghost predicate Inv(cfg: Config, s: State) {
    && ValidConfig(cfg) && Shaped(cfg, s)
    && Gates(s.pcs, s.gates) && Slots(cfg, s) && ResultsFit(s) && Flags(cfg, s)
    && HoldsFit(s.pcs, s.sched.holds, s.sched.done) && S.Inv(s.sched)
  }

  lemma InitInv(cfg: Config)
    requires ValidConfig(cfg)
    ensures Inv(cfg, Init(cfg))
  {
    S.FreshInv();
    assert SlotHolders(Init(cfg)) == {};
  }

  /** An event moves one program counter: where that puts its goroutine among gates, slots and groups. */
  lemma PcMoves(cfg: Config, s: State, e: Event)
    requires Shaped(cfg, s) && Enabled(cfg, s, e)
    ensures var s' := Apply(cfg, s, e);
            var was, pc := s.pcs[e.i], s'.pcs[e.i];
            && s'.pcs == s.pcs[e.i := pc]
            && s'.gates == (if e.Open? then s.gates[e.i := e.i + 1 < cfg.n] else s.gates)
            && s'.sem == (if e.Acquire? then s.sem + 1 else if e.Free? then s.sem - 1 else s.sem)
            && (Acquired(pc) <==> Acquired(was) || e.Acquire?)
            && (PastGate(pc) <==> PastGate(was) || e.Open?)
            && (HoldsSlot(pc) <==> (HoldsSlot(was) || e.Acquire?) && !e.Free?)
            && (was.Finished? ==> pc.Finished?) && (pc.AwaitTurn? ==> was.AwaitTurn?)
  {
  }

  lemma GatesMove(pcs: seq<Pc>, gates: seq<bool>, i: nat, pc: Pc)
    requires |pcs| == |gates| && i < |pcs| && Gates(pcs, gates)
    requires PastGate(pc) == PastGate(pcs[i])
    requires !pcs[i].AwaitTurn? || i == 0 || gates[i - 1]
    ensures Gates(pcs[i := pc], gates)
  {
  }

  lemma GatesOpen(pcs: seq<Pc>, gates: seq<bool>, i: nat, pc: Pc)
    requires |pcs| == |gates| && i < |pcs| && Gates(pcs, gates)
    requires pcs[i].OpenGate? && PastGate(pc)
    ensures Gates(pcs[i := pc], gates[i := i + 1 < |pcs|])
  {
  }

  lemma ApplyKeepsGates(cfg: Config, s: State, e: Event)
    requires Shaped(cfg, s) && Gates(s.pcs, s.gates) && Enabled(cfg, s, e)
    ensures Gates(Apply(cfg, s, e).pcs, Apply(cfg, s, e).gates)
  {
    var pc := Apply(cfg, s, e).pcs[e.i];
    PcMoves(cfg, s, e);
    if e.Open? {
      GatesOpen(s.pcs, s.gates, e.i, pc);
    } else {
      GatesMove(s.pcs, s.gates, e.i, pc);
    }
  }

  lemma ApplyKeepsResults(cfg: Config, s: State, e: Event)
    requires Shaped(cfg, s) && ResultsFit(s) && Enabled(cfg, s, e)
    ensures ResultsFit(Apply(cfg, s, e))
  {
    var s' := Apply(cfg, s, e);
    assert forall j :: 0 <= j < cfg.n && j != e.i ==> s'.pcs[j] == s.pcs[j] && s'.results[j] == s.results[j];
  }

  lemma ApplyKeepsSlots(cfg: Config, s: State, e: Event)
    requires Shaped(cfg, s) && Slots(cfg, s) && Enabled(cfg, s, e)
    ensures Slots(cfg, Apply(cfg, s, e))
  {
    PcMoves(cfg, s, e);
    HoldersMove(s, Apply(cfg, s, e), e.i);
  }

  /** Only i's move can change the number of slot holders. */
  lemma HoldersMove(s: State, s': State, i: nat)
    requires i < |s.pcs| == |s'.pcs| && s'.pcs == s.pcs[i := s'.pcs[i]]
    ensures var was, now := HoldsSlot(s.pcs[i]), HoldsSlot(s'.pcs[i]);
            |SlotHolders(s')| == |SlotHolders(s)| + (if now && !was then 1 else if was && !now then -1 else 0)
  {
    var others := SlotHolders(s) - {i};
    assert SlotHolders(s) == if HoldsSlot(s.pcs[i]) then others + {i} else others;
    assert SlotHolders(s') == if HoldsSlot(s'.pcs[i]) then others + {i} else others;
  }

  lemma ApplyKeepsFlags(cfg: Config, s: State, e: Event)
    requires Shaped(cfg, s) && ResultsFit(s) && Flags(cfg, s) && Enabled(cfg, s, e)
    ensures Flags(cfg, Apply(cfg, s, e))
  {
    var s' := Apply(cfg, s, e);
    assert forall j :: 0 <= j < cfg.n && j != e.i ==> s'.results[j] == s.results[j];
    assert s'.results[e.i] != s.results[e.i] ==> s.results[e.i].Pending?;
  }

  /** The scheduler operation an event performs, if any. */
  function SchedOp(cfg: Config, s: State, e: Event): (r: Option<S.Op>)
    requires Shaped(cfg, s) && Enabled(cfg, s, e)
    ensures r.Some? ==> S.Enabled(s.sched, r.value) && Apply(cfg, s, e).sched == S.Apply(s.sched, r.value)
    ensures r.None? ==> Apply(cfg, s, e).sched == s.sched
  {
    match e
    case Enter(i, byToken) => if GroupFails(cfg, i) then None else Some(EnterOp(cfg, i, byToken))
    case Exit(i) => Some(S.Exit(i))
    case Expire(i) => Some(S.Expire(i))
    case _ => None
  }

  lemma HoldsMove(pcs: seq<Pc>, i: nat, pc: Pc, s: S.State, op: Option<S.Op>)
    requires i < |pcs| && HoldsFit(pcs, s.holds, s.done) && S.EntriesCurrent(s)
    requires op.Some? ==> op.value.caller == i && S.Enabled(s, op.value)
    requires if op.None? || op.value.Expire? then InGroup(pc) == InGroup(pcs[i]) else InGroup(pc) == !op.value.Exit?
    ensures var s' := if op.Some? then S.Apply(s, op.value) else s; HoldsFit(pcs[i := pc], s'.holds, s'.done)
  {
    if op.Some? {
      S.ApplyHolds(s, op.value);
    }
  }

  lemma ApplyKeepsHolds(cfg: Config, s: State, e: Event)
    requires Shaped(cfg, s) && Enabled(cfg, s, e)
    requires HoldsFit(s.pcs, s.sched.holds, s.sched.done) && S.EntriesCurrent(s.sched)
    ensures var s' := Apply(cfg, s, e); HoldsFit(s'.pcs, s'.sched.holds, s'.sched.done)
  {
    var s' := Apply(cfg, s, e);
    assert s'.pcs == s.pcs[e.i := s'.pcs[e.i]];
    HoldsMove(s.pcs, e.i, s'.pcs[e.i], s.sched, SchedOp(cfg, s, e));
  }

  lemma ApplyKeepsSched(cfg: Config, s: State, e: Event)
    requires Shaped(cfg, s) && Enabled(cfg, s, e) && S.Inv(s.sched)
    ensures S.Inv(Apply(cfg, s, e).sched)
  {
    var op := SchedOp(cfg, s, e);
    if op.Some? {
      S.ApplyKeepsInv(s.sched, op.value);
    }
  }

  lemma ApplyKeepsInv(cfg: Config, s: State, e: Event)
    requires Inv(cfg, s) && Enabled(cfg, s, e)
    ensures Inv(cfg, Apply(cfg, s, e))
  {
    ApplyKeepsGates(cfg, s, e);
    ApplyKeepsResults(cfg, s, e);
    ApplyKeepsHolds(cfg, s, e);
    ApplyKeepsSlots(cfg, s, e);
    ApplyKeepsFlags(cfg, s, e);
    ApplyKeepsSched(cfg, s, e);
  }

  lemma {:induction false} RunKeepsInv(cfg: Config, s: State, es: seq<Event>)
    requires Inv(cfg, s) && CanRun(cfg, s, es)
    ensures Inv(cfg, Run(cfg, s, es))
    decreases es
  {
    if es != [] {
      ApplyKeepsInv(cfg, s, es[0]);
      RunKeepsInv(cfg, Apply(cfg, s, es[0]), es[1..]);
    }
  }

  // ----- the scheduler inside the pool -----

  /**
    The scheduler operations of a run of the pool, in order. They are a run of the scheduler
    itself, so the scheduler's theorems hold inside the pool.
   */
  function SchedOps(cfg: Config, s: State, es: seq<Event>): (ops: seq<S.Op>)
    requires Shaped(cfg, s) && CanRun(cfg, s, es)
    ensures S.CanRun(s.sched, ops) && S.Run(s.sched, ops) == Run(cfg, s, es).sched
    decreases es
  {
    if es == [] then []
    else
      var op := SchedOp(cfg, s, es[0]);
      var rest := SchedOps(cfg, Apply(cfg, s, es[0]), es[1..]);
      if op.None? then rest
      else
        var ops := [op.value] + rest;
        assert ops[1..] == rest;
        ops
  }
}
