/** Groups of the concurrency scheduler do not affect each other: what other groups do can be erased from a run. */
module Groups {
  import opened Outcomes
  import opened Scheduler

  // ----- one operation -----

  function GroupOf(s: State, op: Op): Option<string>
    requires Enabled(s, op)
  {
    match op
    case Queue(_, g, _) => Some(g)
    case Preempt(_, g) => Some(g)
    case Exit(c) => if s.holds[c].Unmanaged? then None else Some(s.holds[c].group)
    case Pass(_) => None
    case Expire(_) => None
  }

  predicate InGroup(h: Hold, g: string) {
    !h.Unmanaged? && h.group == g
  }

  /** The group's channel, generation and registered cancel function are the same. */
  predicate SameGroup(s: State, s': State, g: string) {
    && (g in s'.tokens <==> g in s.tokens) && Lookup(s'.tokens, g) == Lookup(s.tokens, g)
    && (g in s'.gen <==> g in s.gen) && Lookup(s'.gen, g) == Lookup(s.gen, g)
    && (g in s'.entry <==> g in s.entry) && Lookup(s'.entry, g) == Lookup(s.entry, g)
  }

  /** The group's holders in s hold the same in s', and their contexts are as live. */
  predicate KeepsHolders(s: State, s': State, g: string) {
    forall c :: c in s.holds && InGroup(s.holds[c], g) ==>
      c in s'.holds && s'.holds[c] == s.holds[c] && (c in s'.done <==> c in s.done)
  }

  /** An operation in one group leaves every other group's channel, generation and entry alone. */
  lemma GroupsIndependent(s: State, op: Op, g: string)
    requires Enabled(s, op) && GroupOf(s, op) != Some(g)
    ensures SameGroup(s, Apply(s, op), g)
  {
  }

  /** Nor does it release, replace or cancel a holder in another group; a timeout reaches only its own caller. */
  lemma HoldersIndependent(s: State, op: Op, g: string)
    requires EntriesCurrent(s) && Enabled(s, op) && GroupOf(s, op) != Some(g)
    ensures forall c :: c in s.holds && InGroup(s.holds[c], g) ==>
              && c in Apply(s, op).holds && Apply(s, op).holds[c] == s.holds[c]
              && (op != Expire(c) ==> (c in Apply(s, op).done <==> c in s.done))
    ensures !op.Expire? ==> KeepsHolders(s, Apply(s, op), g)
  {
  }

  // ----- whole runs -----

  predicate Lets(op: Op) {
    op.Queue? || op.Preempt? || op.Pass?
  }

  /** The callers in mine are those that enter g; whoever enters another group, or none, is not among them. */
  predicate Partitioned(op: Op, g: string, mine: set<nat>) {
    Lets(op) ==> (op.caller in mine <==> !op.Pass? && op.group == g)
  }

  predicate AllPartitioned(ops: seq<Op>, g: string, mine: set<nat>) {
    forall i :: 0 <= i < |ops| ==> Partitioned(ops[i], g, mine)
  }

  /** The run with every operation of the other callers erased. */
  function Only(ops: seq<Op>, mine: set<nat>): seq<Op> {
    if ops == [] then [] else (if ops[0].caller in mine then [ops[0]] else []) + Only(ops[1..], mine)
  }

  ghost predicate Owned(s: State, g: string, mine: set<nat>) {
    forall c :: c in s.holds ==> (c in mine <==> InGroup(s.holds[c], g))
  }

  /** As far as g and its callers can tell, the states are the same. */
  ghost predicate SameFor(s: State, s': State, g: string, mine: set<nat>) {
    SameGroup(s, s', g) && SameCallers(s, s', mine)
  }

  ghost predicate SameCallers(s: State, s': State, mine: set<nat>) {
    && (forall c :: c in mine ==> (c in s.holds <==> c in s'.holds))
    && (forall c :: c in mine && c in s.holds ==> s.holds[c] == s'.holds[c])
    && (forall c :: c in mine ==> (c in s.done <==> c in s'.done))
  }

  lemma OthersInvisible(s: State, s': State, op: Op, g: string, mine: set<nat>)
    requires EntriesCurrent(s) && Owned(s, g, mine) && SameFor(s, s', g, mine)
    requires Enabled(s, op) && Partitioned(op, g, mine) && op.caller !in mine
    ensures SameFor(Apply(s, op), s', g, mine)
  {
    GroupsIndependent(s, op, g);
  }

  lemma QueueAlike(s: State, s': State, c: nat, g: string, byToken: bool, mine: set<nat>)
    requires SameFor(s, s', g, mine) && c in mine
    ensures QueueReady(s, c, g, byToken) <==> QueueReady(s', c, g, byToken)
    ensures SameFor(EnterQueue(s, c, g, byToken), EnterQueue(s', c, g, byToken), g, mine)
  {
  }

  lemma PreemptAlike(s: State, s': State, c: nat, g: string, mine: set<nat>)
    requires SameFor(s, s', g, mine) && c in mine
    ensures SameFor(EnterPreempting(s, c, g), EnterPreempting(s', c, g), g, mine)
  {
  }

  lemma LeaveAlike(s: State, s': State, c: nat, g: string, mine: set<nat>)
    requires Owned(s, g, mine) && SameFor(s, s', g, mine) && c in mine && ReleaseReady(s, c)
    ensures ReleaseReady(s', c) && SameFor(Leave(s, c), Leave(s', c), g, mine)
  {
    LeaveSameGroup(s, s', c, g);
    LeaveSameCallers(s, s', c, mine);
  }

  lemma LeaveSameGroup(s: State, s': State, c: nat, g: string)
    requires SameGroup(s, s', g) && ReleaseReady(s, c) && InGroup(s.holds[c], g)
    requires c in s'.holds && s'.holds[c] == s.holds[c]
    ensures ReleaseReady(s', c) && SameGroup(Leave(s, c), Leave(s', c), g)
  {
  }

  lemma LeaveSameCallers(s: State, s': State, c: nat, mine: set<nat>)
    requires SameCallers(s, s', mine) && ReleaseReady(s, c) && ReleaseReady(s', c) && s'.holds[c] == s.holds[c]
    ensures SameCallers(Leave(s, c), Leave(s', c), mine)
  {
    assert Leave(s, c).holds == s.holds - {c} && Leave(s', c).holds == s'.holds - {c};
    assert forall d :: d in Leave(s, c).done <==> d in s.done || (d == c && s.holds[c].Ticket?);
    assert forall d :: d in Leave(s', c).done <==> d in s'.done || (d == c && s.holds[c].Ticket?);
  }

  lemma MineAlike(s: State, s': State, op: Op, g: string, mine: set<nat>)
    requires Owned(s, g, mine) && SameFor(s, s', g, mine)
    requires Enabled(s, op) && Partitioned(op, g, mine) && op.caller in mine
    ensures Enabled(s', op) && SameFor(Apply(s, op), Apply(s', op), g, mine)
  {
    match op {
      case Queue(c, _, byToken) => QueueAlike(s, s', c, g, byToken, mine);
      case Preempt(c, _) => PreemptAlike(s, s', c, g, mine);
      case Exit(c) => LeaveAlike(s, s', c, g, mine);
      case Expire(_) =>
    }
  }

  lemma ApplyKeepsOwned(s: State, op: Op, g: string, mine: set<nat>)
    requires Owned(s, g, mine) && Enabled(s, op) && Partitioned(op, g, mine)
    ensures Owned(Apply(s, op), g, mine)
  {
  }

  lemma {:induction false} RunsAlike(s: State, s': State, ops: seq<Op>, g: string, mine: set<nat>)
    requires EntriesCurrent(s) && Owned(s, g, mine) && SameFor(s, s', g, mine)
    requires CanRun(s, ops) && AllPartitioned(ops, g, mine)
    ensures CanRun(s', Only(ops, mine)) && SameFor(Run(s, ops), Run(s', Only(ops, mine)), g, mine)
    decreases ops
  {
    if ops != [] {
      var op := ops[0];
      assert Partitioned(op, g, mine);
      ApplyKeepsEntries(s, op);
      ApplyKeepsOwned(s, op, g, mine);
      if op.caller in mine {
        MineAlike(s, s', op, g, mine);
        RunsAlike(Apply(s, op), Apply(s', op), ops[1..], g, mine);
        var rest := Only(ops[1..], mine);
        assert ([op] + rest)[1..] == rest;
      } else {
        OthersInvisible(s, s', op, g, mine);
        RunsAlike(Apply(s, op), s', ops[1..], g, mine);
        assert Only(ops, mine) == Only(ops[1..], mine);
      }
    }
  }

  /**
    Erasing from a run every operation of the callers that are not in g leaves a run, with the
    same channel, generation and entry for g at its end, and the same holds and contexts of g's callers.
   */
  lemma OtherGroupsErasable(ops: seq<Op>, g: string, mine: set<nat>)
    requires CanRun(FRESH, ops) && AllPartitioned(ops, g, mine)
    ensures CanRun(FRESH, Only(ops, mine))
    ensures SameFor(Run(FRESH, ops), Run(FRESH, Only(ops, mine)), g, mine)
  {
    RunsAlike(FRESH, FRESH, ops, g, mine);
  }
}
