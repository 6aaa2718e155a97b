/**
  Which jobs can break cancel-in-progress exclusivity: the combinations sharing a group, the slots
  and the mode decide whether some interleaving leaves two live holders.
 */
module PoolPreemption {
  import opened Pool
  import opened PoolRuns
  import G = Groups
  import P = Preemption
  import S = Scheduler

  /** The combinations whose group name comes to g. */
  function Members(cfg: Config, g: string): set<nat> {
    set i: nat | i < |cfg.groups| && cfg.groups[i] == Group(g)
  }

  ghost predicate CanShare(cfg: Config, g: string) {
    exists s :: Reachable(cfg, s) && !P.AtMostOneLive(s.sched, g)
  }

  // ----- why two live holders take four members and two slots -----

  predicate BeforeGroup(pc: Pc) {
    pc.AwaitTurn? || pc.WantSlot? || pc.OpenGate? || pc.CheckStop? || pc.WantGroup?
  }

  /** The members that have yet to call acquire. */
  function YetToEnter(cfg: Config, s: State, g: string): set<nat> {
    set i | i in Members(cfg, g) && i < |s.pcs| && BeforeGroup(s.pcs[i])
  }

  predicate EntersBy(cfg: Config, s: State, e: Event, g: string)
    requires Shaped(cfg, s) && Enabled(cfg, s, e)
  {
    SchedOp(cfg, s, e).Some? && SchedOp(cfg, s, e).value.Preempt? && SchedOp(cfg, s, e).value.group == g
  }

  lemma EntryUsesUp(cfg: Config, s: State, e: Event, g: string)
    requires Shaped(cfg, s) && Enabled(cfg, s, e)
    ensures YetToEnter(cfg, Apply(cfg, s, e), g) <= YetToEnter(cfg, s, g)
    ensures EntersBy(cfg, s, e, g) ==>
              && cfg.mode.CancelInProgress? && g != ""
              && e.i in YetToEnter(cfg, s, g) && e.i !in YetToEnter(cfg, Apply(cfg, s, e), g)
  {
    PcMoves(cfg, s, e);
    assert BeforeGroup(Apply(cfg, s, e).pcs[e.i]) ==> BeforeGroup(s.pcs[e.i]);
  }

  lemma {:induction false} EntriesBounded(cfg: Config, s: State, es: seq<Event>, g: string)
    requires Shaped(cfg, s) && CanRun(cfg, s, es)
    ensures P.Entries(SchedOps(cfg, s, es), g) <= |YetToEnter(cfg, s, g)|
    ensures P.Entries(SchedOps(cfg, s, es), g) > 0 ==> cfg.mode.CancelInProgress? && g != ""
    decreases es
  {
    if es != [] {
      var s' := Apply(cfg, s, es[0]);
      EntryUsesUp(cfg, s, es[0], g);
      EntriesBounded(cfg, s', es[1..], g);
      SchedOpsTurn(cfg, s, es);
      var spent := if EntersBy(cfg, s, es[0], g) then {es[0].i} else {};
      S.SubsetSize(YetToEnter(cfg, s', g) + spent, YetToEnter(cfg, s, g));
    }
  }

  /** The first event's operation, if any, comes first. */
  lemma SchedOpsTurn(cfg: Config, s: State, es: seq<Event>)
    requires Shaped(cfg, s) && CanRun(cfg, s, es) && es != []
    ensures var rest := SchedOps(cfg, Apply(cfg, s, es[0]), es[1..]);
            forall g :: P.Entries(SchedOps(cfg, s, es), g) ==
                          (if EntersBy(cfg, s, es[0], g) then 1 else 0) + P.Entries(rest, g)
  {
    var op := SchedOp(cfg, s, es[0]);
    var rest := SchedOps(cfg, Apply(cfg, s, es[0]), es[1..]);
    if op.Some? {
      assert ([op.value] + rest)[1..] == rest;
    }
  }

  lemma TwoHoldersTwoSlots(cfg: Config, s: State, c: nat, d: nat, g: string)
    requires Inv(cfg, s) && P.Live(s.sched, c, g) && P.Live(s.sched, d, g) && c != d
    ensures cfg.maxParallel >= 2
  {
    assert InGroup(s.pcs[c]) && InGroup(s.pcs[d]);
    S.SubsetSize({c, d}, SlotHolders(s));
    assert |{c, d}| == 2;
  }

  lemma SharingNeeds(cfg: Config, s: State, g: string)
    requires ValidConfig(cfg) && Reachable(cfg, s) && !P.AtMostOneLive(s.sched, g)
    ensures cfg.mode.CancelInProgress? && g != "" && cfg.maxParallel >= 2 && |Members(cfg, g)| >= 4
  {
    var es :| CanRun(cfg, Init(cfg), es) && Run(cfg, Init(cfg), es) == s;
    P.SharingTakesFour(SchedOps(cfg, Init(cfg), es), g);
    EntriesBounded(cfg, Init(cfg), es, g);
    S.SubsetSize(YetToEnter(cfg, Init(cfg), g), Members(cfg, g));
    ReachableInv(cfg, s);
    var c, d :| P.Live(s.sched, c, g) && P.Live(s.sched, d, g) && c != d;
    TwoHoldersTwoSlots(cfg, s, c, d, g);
  }

  // ----- letting combinations pass -----

  /** Combinations from k on have not begun and k may; nobody at or past k is known to the scheduler. */
  ghost predicate Front(cfg: Config, s: State, k: nat) {
    && Shaped(cfg, s) && k <= cfg.n && !s.stop
    && (0 < k < cfg.n ==> s.gates[k - 1])
    && (forall i :: k <= i < cfg.n ==> s.pcs[i].AwaitTurn?)
    && (forall c :: c in s.sched.holds ==> c < k) && (forall c :: c in s.sched.done ==> c < k)
    && S.EntriesCurrent(s.sched)
  }

  predicate KnownBelow(s: S.State, k: nat) {
    (forall c :: c in s.holds ==> c < k) && (forall c :: c in s.done ==> c < k)
  }

  lemma FrontMoves(cfg: Config, s: State, s': State, k: nat)
    requires Front(cfg, s, k) && k < cfg.n && Shaped(cfg, s') && !s'.stop
    requires s'.pcs == s.pcs[k := s'.pcs[k]] && s'.gates == s.gates[k := k + 1 < cfg.n]
    requires KnownBelow(s'.sched, k + 1) && S.EntriesCurrent(s'.sched)
    ensures Front(cfg, s', k + 1)
  {
  }

  lemma EnterKnown(cfg: Config, s: S.State, k: nat)
    requires S.EntriesCurrent(s) && KnownBelow(s, k) && k < |cfg.groups| && !GroupFails(cfg, k)
    requires S.Enabled(s, EnterOp(cfg, k, true))
    ensures var s' := S.Apply(s, EnterOp(cfg, k, true)); KnownBelow(s', k + 1) && S.EntriesCurrent(s')
  {
    S.ApplyKeepsEntries(s, EnterOp(cfg, k, true));
    S.ApplyHolds(s, EnterOp(cfg, k, true));
  }

  /** Combination k begins: it takes a slot and enters its group. */
  lemma Begins(cfg: Config, s: State, k: nat) returns (s': State)
    requires Front(cfg, s, k) && k < cfg.n && s.sem < cfg.maxParallel
    requires cfg.mode.CancelInProgress? && !GroupFails(cfg, k)
    ensures RunsTo(cfg, s, s') && Front(cfg, s', k + 1)
    ensures s'.sem == s.sem + 1 && s'.pcs == s.pcs[k := Running]
    ensures s'.sched == S.Apply(s.sched, EnterOp(cfg, k, true))
  {
    TakesSlot(cfg, s, k);
    var t := WithSlot(cfg, s, k);
    Enters(cfg, t, k);
    s' := Entered(cfg, t, k);
    RunsOn(cfg, s, t, s');
    EnterKnown(cfg, s.sched, k);
    assert s.pcs[k := CheckStop][k := Running] == s.pcs[k := Running];
    FrontMoves(cfg, s, s', k);
  }

  /** A running combination i succeeds and leaves. */
  lemma Ends(cfg: Config, s: State, k: nat, i: nat) returns (s': State)
    requires Front(cfg, s, k) && i < k && s.pcs[i].Running? && s.sem > 0 && S.ReleaseReady(s.sched, i)
    ensures RunsTo(cfg, s, s') && Front(cfg, s', k)
    ensures s'.sem == s.sem - 1 && s'.pcs == s.pcs[i := Finished] && s'.sched == S.Leave(s.sched, i)
  {
    Concludes(cfg, s, i, Succeeded);
    var t := Concluded(cfg, s, i, Succeeded);
    Leaves(cfg, t, i);
    s' := Left(cfg, t, i);
    RunsOn(cfg, s, t, s');
    S.LeaveKeepsEntries(s.sched, i);
    S.ApplyHolds(s.sched, S.Exit(i));
    assert s.pcs[i := LeaveGroup][i := Finished] == s.pcs[i := Finished];
  }

  lemma PassesBad(cfg: Config, s: State, k: nat) returns (s': State)
    requires Front(cfg, s, k) && k < cfg.n && s.sem < cfg.maxParallel && GroupFails(cfg, k)
    ensures RunsTo(cfg, s, s') && Front(cfg, s', k + 1)
    ensures s'.sem == s.sem && s'.pcs == s.pcs[k := Finished] && s'.sched == s.sched
  {
    TakesSlot(cfg, s, k);
    var t := WithSlot(cfg, s, k);
    TurnsAway(cfg, t, k);
    s' := TurnedAway(cfg, t, k);
    RunsOn(cfg, s, t, s');
    assert s.pcs[k := CheckStop][k := Finished] == s.pcs[k := Finished];
    FrontMoves(cfg, s, s', k);
  }

  /** Nothing of g has changed. */
  predicate Kept(s: S.State, s': S.State, g: string) {
    G.SameGroup(s, s', g) && G.KeepsHolders(s, s', g)
  }

  /** A step of the scheduler on another group keeps g. */
  lemma OtherGroupKeeps(s: S.State, op: S.Op, g: string)
    requires S.EntriesCurrent(s) && S.Enabled(s, op) && !op.Expire?
    requires G.GroupOf(s, op).Some? ==> G.GroupOf(s, op).value != g
    ensures Kept(s, S.Apply(s, op), g)
  {
    G.GroupsIndependent(s, op, g);
    G.HoldersIndependent(s, op, g);
  }

  lemma OtherGroupPasses(cfg: Config, s: S.State, k: nat, g: string)
    requires S.EntriesCurrent(s) && k < |cfg.groups| && cfg.mode.CancelInProgress? && cfg.groups[k].Group?
    requires cfg.groups[k] != Group(g) && g != "" && S.Enabled(s, EnterOp(cfg, k, true))
    ensures var s1 := S.Apply(s, EnterOp(cfg, k, true)); S.ReleaseReady(s1, k) && Kept(s, S.Leave(s1, k), g)
  {
    var op := EnterOp(cfg, k, true);
    var s1 := S.Apply(s, op);
    OtherGroupKeeps(s, op, g);
    S.ApplyKeepsEntries(s, op);
    OtherGroupKeeps(s1, S.Exit(k), g);
    KeptOn(s, s1, S.Leave(s1, k), g);
  }

  lemma PassesGood(cfg: Config, s: State, k: nat, g: string) returns (s': State)
    requires Front(cfg, s, k) && k < cfg.n && s.sem < cfg.maxParallel
    requires cfg.mode.CancelInProgress? && g != "" && k !in Members(cfg, g) && !GroupFails(cfg, k)
    ensures RunsTo(cfg, s, s') && Front(cfg, s', k + 1) && Kept(s.sched, s'.sched, g)
    ensures s'.sem == s.sem && s'.pcs == s.pcs[k := Finished]
  {
    var t := Begins(cfg, s, k);
    OtherGroupPasses(cfg, s.sched, k, g);
    s' := Ends(cfg, t, k + 1, k);
    RunsOn(cfg, s, t, s');
    assert s.pcs[k := Running][k := Finished] == s.pcs[k := Finished];
  }

  lemma PassesOne(cfg: Config, s: State, k: nat, g: string) returns (s': State)
    requires Front(cfg, s, k) && k < cfg.n && s.sem < cfg.maxParallel
    requires cfg.mode.CancelInProgress? && g != "" && k !in Members(cfg, g)
    ensures RunsTo(cfg, s, s') && Front(cfg, s', k + 1) && Kept(s.sched, s'.sched, g)
    ensures s'.sem == s.sem && s'.pcs == s.pcs[k := Finished]
  {
    if GroupFails(cfg, k) {
      s' := PassesBad(cfg, s, k);
    } else {
      s' := PassesGood(cfg, s, k, g);
    }
  }

  lemma KeptOn(s: S.State, t: S.State, u: S.State, g: string)
    requires Kept(s, t, g) && Kept(t, u, g)
    ensures Kept(s, u, g)
  {
  }

  /** Combinations k to m - 1, none of them in g, run to their ends one after another. */
  lemma {:induction false} PassesTo(cfg: Config, s: State, k: nat, m: nat, g: string) returns (s': State)
    requires Front(cfg, s, k) && k <= m <= cfg.n && s.sem < cfg.maxParallel
    requires cfg.mode.CancelInProgress? && g != "" && forall i :: k <= i < m ==> i !in Members(cfg, g)
    ensures RunsTo(cfg, s, s') && Front(cfg, s', m) && Kept(s.sched, s'.sched, g)
    ensures s'.sem == s.sem && forall i :: 0 <= i < k ==> s'.pcs[i] == s.pcs[i]
    decreases m - k
  {
    if k == m {
      RunsNowhere(cfg, s);
      s' := s;
    } else {
      var t := PassesOne(cfg, s, k, g);
      s' := PassesTo(cfg, t, k + 1, m, g);
      RunsOn(cfg, s, t, s');
      KeptOn(s.sched, t.sched, s'.sched, g);
    }
  }

  // ----- the four members -----

  predicate NoEntry(s: S.State, g: string) {
    g !in s.gen && g !in s.entry
  }

  /** a holds generation 1 and is registered. */
  predicate Sole(s: S.State, g: string, a: nat) {
    && g in s.gen && s.gen[g] == 1 && g in s.entry && s.entry[g] == a
    && a in s.holds && s.holds[a] == S.Ticket(g, 1)
  }

  /** a holds generation 1 of a group whose counter is gone. */
  predicate Stale(s: S.State, g: string, a: nat) {
    NoEntry(s, g) && a in s.holds && s.holds[a] == S.Ticket(g, 1)
  }

  /** c's generation is a's: 1 again. */
  predicate Reused(s: S.State, g: string, a: nat, c: nat) {
    a != c && Sole(s, g, c) && c !in s.done && a in s.holds && s.holds[a] == S.Ticket(g, 1)
  }

  /** c is live but no longer registered. */
  predicate Forgotten(s: S.State, g: string, c: nat) {
    Stale(s, g, c) && c !in s.done
  }

  lemma SecondComesAndGoes(s: S.State, g: string, a: nat, b: nat)
    requires Sole(s, g, a) && b !in s.holds && g != ""
    ensures var t := S.EnterPreempting(s, b, g); S.ReleaseReady(t, b) && Stale(S.Leave(t, b), g, a)
  {
  }

  lemma ThirdReuses(s: S.State, g: string, a: nat, c: nat)
    requires Stale(s, g, a) && c !in s.holds && c !in s.done
    ensures var t := S.EnterPreempting(s, c, g);
            Reused(t, g, a, c) && S.ReleaseReady(t, a) && Forgotten(S.Leave(t, a), g, c)
  {
  }

  lemma FourthShares(s: S.State, g: string, c: nat, d: nat)
    requires Forgotten(s, g, c) && d !in s.holds && d !in s.done
    ensures P.Live(S.EnterPreempting(s, d, g), c, g) && P.Live(S.EnterPreempting(s, d, g), d, g) && c != d
  {
  }

  lemma PhasesKept(s: S.State, s': S.State, g: string, a: nat)
    requires Kept(s, s', g)
    ensures NoEntry(s, g) ==> NoEntry(s', g)
    ensures Sole(s, g, a) ==> Sole(s', g, a)
    ensures Stale(s, g, a) ==> Stale(s', g, a)
    ensures Forgotten(s, g, a) ==> Forgotten(s', g, a)
  {
  }

  /** The combinations before member m pass, and m enters the group from a state in which nothing of g has changed. */
  lemma NextEnters(cfg: Config, s: State, k: nat, m: nat, g: string) returns (s': State, before: S.State)
    requires Front(cfg, s, k) && k <= m && s.sem < cfg.maxParallel
    requires cfg.mode.CancelInProgress? && g != "" && m in Members(cfg, g)
    requires forall i :: k <= i < m ==> i !in Members(cfg, g)
    ensures RunsTo(cfg, s, s') && Front(cfg, s', m + 1) && s'.sem == s.sem + 1
    ensures s'.pcs[m].Running? && forall i :: 0 <= i < k ==> s'.pcs[i] == s.pcs[i]
    ensures Kept(s.sched, before, g) && m !in before.holds && m !in before.done
    ensures s'.sched == S.EnterPreempting(before, m, g)
  {
    var t := PassesTo(cfg, s, k, m, g);
    before := t.sched;
    s' := Begins(cfg, t, m);
    RunsOn(cfg, s, t, s');
  }

  /** The first member runs; those before it have ended. */
  lemma FirstMember(cfg: Config, a: nat, g: string) returns (s: State)
    requires ValidConfig(cfg) && cfg.mode.CancelInProgress? && g != "" && a in Members(cfg, g)
    requires forall i :: 0 <= i < a ==> i !in Members(cfg, g)
    ensures Reachable(cfg, s) && Front(cfg, s, a + 1) && s.sem == 1 && s.pcs[a].Running? && Sole(s.sched, g, a)
  {
    var before;
    s, before := NextEnters(cfg, Init(cfg), 0, a, g);
    PhasesKept(S.FRESH, before, g, a);
  }

  /** The second comes and goes, taking the counter with it. */
  lemma SecondMember(cfg: Config, s: State, a: nat, b: nat, g: string) returns (s': State)
    requires cfg.mode.CancelInProgress? && cfg.maxParallel >= 2 && g != "" && b in Members(cfg, g)
    requires a < b && forall i :: a < i < b ==> i !in Members(cfg, g)
    requires Front(cfg, s, a + 1) && s.sem == 1 && s.pcs[a].Running? && Sole(s.sched, g, a)
    ensures RunsTo(cfg, s, s') && Front(cfg, s', b + 1) && s'.sem == 1 && s'.pcs[a].Running? && Stale(s'.sched, g, a)
  {
    var t, before := NextEnters(cfg, s, a + 1, b, g);
    PhasesKept(s.sched, before, g, a);
    assert t.pcs[a] == s.pcs[a];
    s' := SecondLeaves(cfg, t, before, a, b, g);
    RunsOn(cfg, s, t, s');
  }

  lemma SecondLeaves(cfg: Config, s: State, before: S.State, a: nat, b: nat, g: string) returns (s': State)
    requires Front(cfg, s, b + 1) && a < b && s.sem == 2 && s.pcs[a].Running? && s.pcs[b].Running?
    requires s.sched == S.EnterPreempting(before, b, g) && Sole(before, g, a) && b !in before.holds && g != ""
    ensures RunsTo(cfg, s, s') && Front(cfg, s', b + 1) && s'.sem == 1 && s'.pcs[a].Running? && Stale(s'.sched, g, a)
  {
    SecondComesAndGoes(before, g, a, b);
    s' := Ends(cfg, s, b + 1, b);
  }

  /** The third is given the first one's generation; the first one's release then clears its entry. */
  lemma ThirdMember(cfg: Config, s: State, a: nat, b: nat, c: nat, g: string) returns (s': State)
    requires cfg.mode.CancelInProgress? && cfg.maxParallel >= 2 && g != "" && c in Members(cfg, g)
    requires a < b < c && forall i :: b < i < c ==> i !in Members(cfg, g)
    requires Front(cfg, s, b + 1) && s.sem == 1 && s.pcs[a].Running? && Stale(s.sched, g, a)
    ensures RunsTo(cfg, s, s') && Front(cfg, s', c + 1) && s'.sem == 1 && Forgotten(s'.sched, g, c)
  {
    var t, before := NextEnters(cfg, s, b + 1, c, g);
    PhasesKept(s.sched, before, g, a);
    ThirdReuses(before, g, a, c);
    s' := Ends(cfg, t, c + 1, a);
    RunsOn(cfg, s, t, s');
  }

  /** The fourth enters beside the third. */
  lemma FourthMember(cfg: Config, s: State, c: nat, d: nat, g: string) returns (s': State)
    requires cfg.mode.CancelInProgress? && cfg.maxParallel >= 2 && g != "" && d in Members(cfg, g)
    requires c < d && forall i :: c < i < d ==> i !in Members(cfg, g)
    requires Front(cfg, s, c + 1) && s.sem == 1 && Forgotten(s.sched, g, c)
    ensures RunsTo(cfg, s, s') && P.Live(s'.sched, c, g) && P.Live(s'.sched, d, g) && c != d
  {
    var before;
    s', before := NextEnters(cfg, s, c + 1, d, g);
    PhasesKept(s.sched, before, g, c);
    FourthShares(before, g, c, d);
  }

  lemma {:induction false} Least(xs: set<nat>) returns (m: nat)
    requires xs != {}
    ensures m in xs && forall x :: x in xs ==> m <= x
  {
    m :| m in xs;
    if xs != {m} {
      var rest := xs - {m};
      assert xs == rest + {m};
      var least := Least(rest);
      m := if least < m then least else m;
    }
  }

  /** The least member of a set, and the rest of it. */
  lemma Smallest(xs: set<nat>, n: nat) returns (m: nat, rest: set<nat>)
    requires |xs| >= n > 0
    ensures m in xs && rest == xs - {m} && |rest| >= n - 1 && forall x :: x in xs ==> x == m || m < x
  {
    assert xs != {};
    m := Least(xs);
    rest := xs - {m};
  }

  lemma FourSmallest(xs: set<nat>) returns (a: nat, b: nat, c: nat, d: nat)
    requires |xs| >= 4
    ensures a in xs && b in xs && c in xs && d in xs && a < b < c < d
    ensures forall x :: x in xs ==> x >= a && !(a < x < b) && !(b < x < c) && !(c < x < d)
  {
    var r1, r2, r3, r4;
    a, r1 := Smallest(xs, 4);
    b, r2 := Smallest(r1, 3);
    c, r3 := Smallest(r2, 2);
    d, r4 := Smallest(r3, 1);
    forall x | x in xs ensures x == a || x == b || x == c || x >= d {
      if x != a && x != b && x != c {
        assert x in r3;
      }
    }
  }

  lemma SharingHappens(cfg: Config, g: string)
    requires ValidConfig(cfg) && cfg.mode.CancelInProgress? && g != ""
    requires cfg.maxParallel >= 2 && |Members(cfg, g)| >= 4
    ensures CanShare(cfg, g)
  {
    var a, b, c, d := FourSmallest(Members(cfg, g));
    var s1 := FirstMember(cfg, a, g);
    var s2 := SecondMember(cfg, s1, a, b, g);
    var s3 := ThirdMember(cfg, s2, a, b, c, g);
    var s4 := FourthMember(cfg, s3, c, d, g);
    RunsOn(cfg, Init(cfg), s1, s2);
    RunsOn(cfg, Init(cfg), s2, s3);
    RunsOn(cfg, Init(cfg), s3, s4);
  }

  /**
    Some interleaving of the job leaves two live combinations in group g iff the job cancels in
    progress, has at least two slots, and at least four of its combinations share g.
   */
  lemma SharingIff(cfg: Config, g: string)
    requires ValidConfig(cfg)
    ensures CanShare(cfg, g) <==>
              cfg.mode.CancelInProgress? && g != "" && cfg.maxParallel >= 2 && |Members(cfg, g)| >= 4
  {
    if CanShare(cfg, g) {
      var s :| Reachable(cfg, s) && !P.AtMostOneLive(s.sched, g);
      SharingNeeds(cfg, s, g);
    }
    if cfg.mode.CancelInProgress? && g != "" && cfg.maxParallel >= 2 && |Members(cfg, g)| >= 4 {
      SharingHappens(cfg, g);
    }
  }
}
