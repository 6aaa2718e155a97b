/**
  The per-job scheduler of `concurrency:` groups (internal/engine/concurrency_scheduler.go).

  Callers are numbered; a caller is one goroutine, and it calls acquire at most once. The
  release closure a caller is handed is the value of type Hold that the closure captures.
 */
module Scheduler {
  import opened Outcomes

  datatype Hold =
    | Unmanaged                        // no group: release does nothing
    | Token(group: string)             // queue mode: release receives from the group's channel
    | Bypass(group: string)            // queue mode: the context was done before a token came free
    | Ticket(group: string, gen: nat)  // cancel-in-progress mode

  datatype State = State(
    tokens: map<string, nat>,   // slots: how many elements sit in each group's channel
    gen: map<string, nat>,
    entry: map<string, nat>,    // cancel: whose CancelFunc is registered for the group
    holds: map<nat, Hold>,      // release closures handed out and not called yet
    done: set<nat>)             // callers whose context is done

  const FRESH := State(map[], map[], map[], map[], {})

  function Lookup(m: map<string, nat>, g: string): nat {
    if g in m then m[g] else 0
  }

  // ----- the three critical sections, as functions of the state -----

  /** The select on the group's channel: a token is free, or the caller's context is done. */
  predicate QueueReady(s: State, c: nat, g: string, byToken: bool) {
    if byToken then Lookup(s.tokens, g) == 0 else c in s.done
  }

  function EnterQueue(s: State, c: nat, g: string, byToken: bool): State {
    if byToken then s.(tokens := s.tokens[g := Lookup(s.tokens, g) + 1], holds := s.holds[c := Token(g)])
    else s.(tokens := s.tokens[g := Lookup(s.tokens, g)], holds := s.holds[c := Bypass(g)])
  }

  function EnterPreempting(s: State, c: nat, g: string): State {
    var k := Lookup(s.gen, g) + 1;
    s.(gen := s.gen[g := k],
       entry := s.entry[g := c],
       holds := s.holds[c := Ticket(g, k)],
       done := if g in s.entry then s.done + {s.entry[g]} else s.done)
  }

  /** Receiving from an empty channel would block. */
  predicate ReleaseReady(s: State, c: nat) {
    c in s.holds && (s.holds[c].Token? ==> Lookup(s.tokens, s.holds[c].group) > 0)
  }

  predicate GuardPasses(s: State, h: Hold) {
    h.Ticket? && Lookup(s.gen, h.group) == h.gen
  }

  function Leave(s: State, c: nat): State
    requires ReleaseReady(s, c)
  {
    var h := s.holds[c];
    var s' := s.(holds := s.holds - {c});
    match h
    case Unmanaged => s'
    case Bypass(_) => s'
    case Token(g) => s'.(tokens := s.tokens[g := s.tokens[g] - 1])
    case Ticket(g, _) =>
      if GuardPasses(s, h) then s'.(gen := s.gen - {g}, entry := s.entry - {g}, done := s.done + {c})
      else s'.(done := s.done + {c})
  }

  // ----- the object itself -----

  class ConcurrencyScheduler {
    var slots: map<string, nat>
    var gen: map<string, nat>
    var cancel: map<string, nat>
    var done: set<nat>            // the contexts the cancel functions reach
    ghost var holds: map<nat, Hold>

    ghost function Snapshot(): State
      reads this
    {
      State(slots, gen, cancel, holds, done)
    }

    constructor ()
      ensures Snapshot() == FRESH
    {
      slots, gen, cancel, done, holds := map[], map[], map[], {}, map[];
    }

    /**
      One attempt at acquire. None means the select is still blocked; `byToken` resolves the
      choice the select makes when both of its cases are ready.
     */
    method Acquire(c: nat, group: string, cancelInProgress: bool, byToken: bool) returns (r: Option<Hold>)
      requires c !in holds
      modifies this
      ensures group == "" ==>
                r == Some(Unmanaged) && Snapshot() == old(Snapshot()).(holds := old(holds)[c := Unmanaged])
      ensures group != "" && cancelInProgress ==>
                Snapshot() == EnterPreempting(old(Snapshot()), c, group) && r == Some(holds[c])
      ensures group != "" && !cancelInProgress ==>
                if QueueReady(old(Snapshot()), c, group, byToken)
                then Snapshot() == EnterQueue(old(Snapshot()), c, group, byToken) && r == Some(holds[c])
                else
                  && r == None
                  && Snapshot() == old(Snapshot()).(tokens := old(slots)[group := Lookup(old(slots), group)])
    {
      if group == "" {
        holds := holds[c := Unmanaged];
        return Some(Unmanaged);
      }
      if !cancelInProgress {
        if group !in slots {
          slots := slots[group := 0];
        }
        if byToken && slots[group] == 0 {
          slots := slots[group := slots[group] + 1];
          holds := holds[c := Token(group)];
          return Some(Token(group));
        } else if !byToken && c in done {
          holds := holds[c := Bypass(group)];
          return Some(Bypass(group));
        }
        return None;
      }
      if group in cancel {
        done := done + {cancel[group]};
      }
      gen := gen[group := Lookup(gen, group) + 1];
      cancel := cancel[group := c];
      holds := holds[c := Ticket(group, gen[group])];
      return Some(Ticket(group, gen[group]));
    }

    method Release(c: nat, h: Hold)
      requires c in holds && holds[c] == h && ReleaseReady(Snapshot(), c)
      modifies this
      ensures Snapshot() == Leave(old(Snapshot()), c)
    {
      match h {
        case Unmanaged =>
        case Bypass(_) =>
        case Token(group) =>
          slots := slots[group := slots[group] - 1];
        case Ticket(group, myGen) =>
          if Lookup(gen, group) == myGen {
            cancel := cancel - {group};
            gen := gen - {group};
          }
          done := done + {c};
      }
      holds := holds - {c};
    }
  }

  // ----- runs -----

  datatype Op =
    | Queue(caller: nat, group: string, byToken: bool)
    | Preempt(caller: nat, group: string)
    | Pass(caller: nat)      // acquire with the empty group
    | Exit(caller: nat)
    | Expire(caller: nat)    // a timeout, or the caller's own parent context ending

  predicate Enabled(s: State, op: Op) {
    match op
    case Queue(c, g, byToken) => c !in s.holds && g != "" && QueueReady(s, c, g, byToken)
    case Preempt(c, g) => c !in s.holds && g != ""
    case Pass(c) => c !in s.holds
    case Exit(c) => ReleaseReady(s, c)
    case Expire(_) => true
  }

  function Apply(s: State, op: Op): State
    requires Enabled(s, op)
  {
    match op
    case Queue(c, g, byToken) => EnterQueue(s, c, g, byToken)
    case Preempt(c, g) => EnterPreempting(s, c, g)
    case Pass(c) => s.(holds := s.holds[c := Unmanaged])
    case Exit(c) => Leave(s, c)
    case Expire(c) => s.(done := s.done + {c})
  }

  predicate CanRun(s: State, ops: seq<Op>)
    decreases ops
  {
    ops == [] || (Enabled(s, ops[0]) && CanRun(Apply(s, ops[0]), ops[1..]))
  }

  function Run(s: State, ops: seq<Op>): State
    requires CanRun(s, ops)
    decreases ops
  {
    if ops == [] then s else Run(Apply(s, ops[0]), ops[1..])
  }

  // ----- what holds in every reachable state -----

  ghost predicate TokenHolders(s: State, g: string, who: set<nat>) {
    forall c :: c in who <==> c in s.holds && s.holds[c] == Token(g)
  }

  function HoldersOf(s: State, g: string): (who: set<nat>)
    ensures TokenHolders(s, g, who)
  {
    set c | c in s.holds && s.holds[c] == Token(g)
  }

  /** Each channel holds exactly one element per outstanding token, and never two. */
  ghost predicate ChannelsCount(s: State) {
    forall g :: Lookup(s.tokens, g) == |HoldersOf(s, g)| <= 1
  }

  /** Whoever got through without a token has a done context. */
  ghost predicate BypassersDone(s: State) {
    forall c :: c in s.holds && s.holds[c].Bypass? ==> c in s.done
  }

  /** A registered cancel function belongs to an outstanding holder of the current generation. */
  ghost predicate EntriesCurrent(s: State) {
    && s.entry.Keys == s.gen.Keys
    && (forall g :: g in s.entry ==> s.entry[g] in s.holds && s.holds[s.entry[g]] == Ticket(g, s.gen[g]))
    && (forall c :: c in s.holds && s.holds[c].Ticket? ==> s.holds[c].gen > 0)
  }

  ghost predicate Inv(s: State) {
    ChannelsCount(s) && BypassersDone(s) && EntriesCurrent(s)
  }

  predicate TakesToken(op: Op, g: string) {
    op.Queue? && op.byToken && op.group == g
  }

  predicate GivesToken(s: State, op: Op, g: string) {
    op.Exit? && op.caller in s.holds && s.holds[op.caller] == Token(g)
  }

  lemma HoldersAfter(s: State, op: Op, g: string)
    requires Enabled(s, op)
    ensures var who := HoldersOf(Apply(s, op), g);
            if TakesToken(op, g) then op.caller !in HoldersOf(s, g) && who == HoldersOf(s, g) + {op.caller}
            else if GivesToken(s, op, g) then op.caller in HoldersOf(s, g) && who == HoldersOf(s, g) - {op.caller}
            else who == HoldersOf(s, g)
  {
    match op {
      case Queue(_, _, _) =>
      case Preempt(_, _) =>
      case Pass(_) =>
      case Exit(_) =>
      case Expire(_) =>
    }
  }

  lemma TokensAfter(s: State, op: Op, g: string)
    requires Enabled(s, op)
    ensures var n := Lookup(Apply(s, op).tokens, g);
            if TakesToken(op, g) then Lookup(s.tokens, g) == 0 && n == 1
            else if GivesToken(s, op, g) then n + 1 == Lookup(s.tokens, g)
            else n == Lookup(s.tokens, g)
  {
  }

  lemma ApplyKeepsChannel(s: State, op: Op, g: string)
    requires Enabled(s, op)
    requires Lookup(s.tokens, g) == |HoldersOf(s, g)| <= 1
    ensures Lookup(Apply(s, op).tokens, g) == |HoldersOf(Apply(s, op), g)| <= 1
  {
    TokensAfter(s, op, g);
    HoldersAfter(s, op, g);
  }

  /** What an operation does to the outstanding closures and the done contexts. */
  lemma ApplyHolds(s: State, op: Op)
    requires EntriesCurrent(s) && Enabled(s, op)
    ensures var s' := Apply(s, op);
            && s'.holds.Keys == (if op.Exit? then s.holds.Keys - {op.caller}
                                 else if op.Expire? then s.holds.Keys
                                 else s.holds.Keys + {op.caller})
            && s.done <= s'.done <= s.done + {op.caller} + s.holds.Keys
  {
  }

  lemma EnterKeepsEntries(s: State, c: nat, g: string)
    requires EntriesCurrent(s) && c !in s.holds
    ensures EntriesCurrent(EnterPreempting(s, c, g))
  {
  }

  lemma LeaveKeepsEntries(s: State, c: nat)
    requires EntriesCurrent(s) && ReleaseReady(s, c)
    ensures EntriesCurrent(Leave(s, c))
  {
  }

  lemma ApplyKeepsEntries(s: State, op: Op)
    requires EntriesCurrent(s) && Enabled(s, op)
    ensures EntriesCurrent(Apply(s, op))
  {
    match op {
      case Preempt(c, g) => EnterKeepsEntries(s, c, g);
      case Exit(c) => LeaveKeepsEntries(s, c);
      case _ =>
    }
  }

  lemma ApplyKeepsBypassers(s: State, op: Op)
    requires BypassersDone(s) && Enabled(s, op)
    ensures BypassersDone(Apply(s, op))
  {
  }

  lemma ApplyKeepsInv(s: State, op: Op)
    requires Inv(s) && Enabled(s, op)
    ensures Inv(Apply(s, op))
  {
    forall g ensures Lookup(Apply(s, op).tokens, g) == |HoldersOf(Apply(s, op), g)| <= 1 {
      ApplyKeepsChannel(s, op, g);
    }
    ApplyKeepsEntries(s, op);
    ApplyKeepsBypassers(s, op);
  }

  lemma {:induction false} RunKeepsInv(s: State, ops: seq<Op>)
    requires Inv(s) && CanRun(s, ops)
    ensures Inv(Run(s, ops))
    decreases ops
  {
    if ops != [] {
      ApplyKeepsInv(s, ops[0]);
      RunKeepsInv(Apply(s, ops[0]), ops[1..]);
    }
  }

  lemma FreshInv()
    ensures Inv(FRESH)
  {
    forall g ensures Lookup(FRESH.tokens, g) == |HoldersOf(FRESH, g)| <= 1 {
      assert HoldersOf(FRESH, g) == {};
    }
  }

  /** The caller runs inside the group, having been let through by either mode's acquire. */
  predicate InQueueGroup(s: State, c: nat, g: string) {
    c in s.holds && (s.holds[c] == Token(g) || s.holds[c] == Bypass(g))
  }

  /** Queue mode, over every run: one live runner per group, and a release never blocks. */
  lemma {:induction false} QueueModeExclusive(ops: seq<Op>, g: string, c: nat, d: nat)
    requires CanRun(FRESH, ops)
    ensures var s := Run(FRESH, ops);
            && Lookup(s.tokens, g) <= 1
            && Lookup(s.tokens, g) == |HoldersOf(s, g)|
            && (c in s.holds ==> ReleaseReady(s, c))
            && (InQueueGroup(s, c, g) && s.holds[c].Bypass? ==> c in s.done)
            && (InQueueGroup(s, c, g) && InQueueGroup(s, d, g) && c !in s.done && d !in s.done ==> c == d)
  {
    FreshInv();
    RunKeepsInv(FRESH, ops);
    var s := Run(FRESH, ops);
    var who := HoldersOf(s, g);
    if c in who && d in who && c != d {
      assert {c, d} <= who;
      assert |{c, d}| == 2;
      SubsetSize({c, d}, who);
    }
    if c in s.holds {
      ReleaseNeverBlocks(s, c);
    }
  }

  lemma {:induction false} SubsetSize(a: set<nat>, b: set<nat>)
    requires a <= b
    ensures |a| <= |b|
  {
    if a != {} {
      var x :| x in a;
      SubsetSize(a - {x}, b - {x});
    }
  }

  /** Called once, a release never waits. */
  lemma ReleaseNeverBlocks(s: State, c: nat)
    requires ChannelsCount(s) && c in s.holds
    ensures ReleaseReady(s, c)
  {
    if s.holds[c].Token? {
      SubsetSize({c}, HoldersOf(s, s.holds[c].group));
    }
  }

  /** A channel that is full has a holder to empty it. */
  lemma FullChannelHasHolder(s: State, g: string) returns (c: nat)
    requires ChannelsCount(s) && Lookup(s.tokens, g) > 0
    ensures c in s.holds && s.holds[c] == Token(g)
  {
    var who := HoldersOf(s, g);
    assert |who| > 0;
    c :| c in who;
  }
}
