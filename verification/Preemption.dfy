/**
  Cancel-in-progress mode of the concurrency scheduler: when a group has one live holder.

  The comment on concurrencyScheduler says that a delayed release of a superseded holder can
  never clear a newer holder's state. It can, because a clearing release deletes the
  generation counter and generation 1 is handed out again. This module says exactly when.
 */
module Preemption {
  import opened Scheduler

  /** c was let into g, has not released, and its context has not been cancelled. */
  predicate Live(s: State, c: nat, g: string) {
    c in s.holds && s.holds[c].Ticket? && s.holds[c].group == g && c !in s.done
  }

  ghost predicate AtMostOneLive(s: State, g: string) {
    forall c, d :: Live(s, c, g) && Live(s, d, g) ==> c == d
  }

  /** The only live holder of g, if there is one, is the one whose cancel function is registered. */
  ghost predicate Tracks(s: State, g: string) {
    forall c :: Live(s, c, g) ==> g in s.entry && s.entry[g] == c
  }

  predicate Outstanding(s: State, c: nat, g: string) {
    c in s.holds && s.holds[c].Ticket? && s.holds[c].group == g
  }

  /** c's release would pass the generation check, yet the live registered holder is another. */
  predicate ClearsAnother(s: State, c: nat) {
    && c in s.holds && s.holds[c].Ticket?
    && var g := s.holds[c].group;
       GuardPasses(s, s.holds[c]) && g in s.entry && s.entry[g] != c && s.entry[g] !in s.done
  }

  /** c is outstanding in a group whose registered cancel function is no longer c's own. */
  predicate Superseded(s: State, c: nat) {
    c in s.holds && s.holds[c].Ticket? && !(s.holds[c].group in s.entry && s.entry[s.holds[c].group] == c)
  }

  // ----- one release -----

  /**
    A superseded holder's release changes nothing but its own bookkeeping iff its generation is not
    the current one.
   */
  lemma StaleReleaseIsNoOpIff(s: State, c: nat)
    requires Inv(s) && Superseded(s, c)
    ensures Leave(s, c) == s.(holds := s.holds - {c}, done := s.done + {c}) <==> !GuardPasses(s, s.holds[c])
  {
    var g := s.holds[c].group;
    if GuardPasses(s, s.holds[c]) {
      assert g in s.gen && g !in Leave(s, c).gen;
    }
  }

  lemma ReleaseTracksIff(s: State, c: nat, g: string)
    requires Inv(s) && Tracks(s, g) && Outstanding(s, c, g)
    ensures Tracks(Leave(s, c), g) <==> !ClearsAnother(s, c)
  {
    var s' := Leave(s, c);
    if ClearsAnother(s, c) {
      assert Live(s', s.entry[g], g) && g !in s'.entry;
    } else {
      forall d | Live(s', d, g) ensures g in s'.entry && s'.entry[g] == d {
        assert Live(s, d, g);
      }
    }
  }

  lemma EnterTracks(s: State, c: nat, g: string, h: string)
    requires Inv(s) && Tracks(s, h) && c !in s.holds
    ensures Tracks(EnterPreempting(s, c, g), h)
  {
    var s' := EnterPreempting(s, c, g);
    forall d | Live(s', d, h) ensures h in s'.entry && s'.entry[h] == d {
      if d != c { assert Live(s, d, h); }
    }
  }

  /**
    The exact condition, in terms of what is seen: the next holder to enter shares the group iff the
    release cleared another.
   */
  lemma ReleaseKeepsGroupExclusiveIff(s: State, c: nat, d: nat, g: string)
    requires Inv(s) && Tracks(s, g) && Outstanding(s, c, g)
    requires d !in s.holds && d !in s.done && d != c
    ensures AtMostOneLive(EnterPreempting(Leave(s, c), d, g), g) <==> !ClearsAnother(s, c)
  {
    var s1 := Leave(s, c);
    var s2 := EnterPreempting(s1, d, g);
    ReleaseTracksIff(s, c, g);
    if ClearsAnother(s, c) {
      assert Live(s2, s.entry[g], g) && Live(s2, d, g);
    } else {
      ApplyKeepsInv(s, Exit(c));
      EnterTracks(s1, d, g, g);
    }
  }

  // ----- whole runs -----

  predicate NeverClearsAnother(s: State, ops: seq<Op>)
    requires CanRun(s, ops)
    decreases ops
  {
    ops != [] ==> !(ops[0].Exit? && ClearsAnother(s, ops[0].caller)) && NeverClearsAnother(Apply(s, ops[0]), ops[1..])
  }

  lemma ApplyTracks(s: State, op: Op, g: string)
    requires Inv(s) && Tracks(s, g) && Enabled(s, op)
    requires !(op.Exit? && ClearsAnother(s, op.caller))
    ensures Tracks(Apply(s, op), g)
  {
    if op.Preempt? {
      EnterTracks(s, op.caller, op.group, g);
    } else if op.Exit? && Outstanding(s, op.caller, g) {
      ReleaseTracksIff(s, op.caller, g);
    } else {
      forall d | Live(Apply(s, op), d, g) ensures Live(s, d, g) {}
    }
  }

  lemma {:induction false} RunTracks(s: State, ops: seq<Op>, g: string)
    requires Inv(s) && Tracks(s, g) && CanRun(s, ops) && NeverClearsAnother(s, ops)
    ensures Tracks(Run(s, ops), g)
    decreases ops
  {
    if ops != [] {
      ApplyKeepsInv(s, ops[0]);
      ApplyTracks(s, ops[0], g);
      RunTracks(Apply(s, ops[0]), ops[1..], g);
    }
  }

  /** On every run without a release that clears another holder, no group ever has two live holders. */
  lemma RunsExclusive(ops: seq<Op>, g: string)
    requires CanRun(FRESH, ops) && NeverClearsAnother(FRESH, ops)
    ensures AtMostOneLive(Run(FRESH, ops), g)
  {
    FreshInv();
    RunTracks(FRESH, ops, g);
  }

  // ----- the discipline a caller can follow -----

  /** If c's release clears the group's generation, no other holder of the group is outstanding. */
  ghost predicate Drained(s: State, c: nat) {
    c in s.holds && s.holds[c].Ticket? && GuardPasses(s, s.holds[c]) ==>
      forall d :: Outstanding(s, d, s.holds[c].group) ==> d == c
  }

  ghost predicate EveryReleaseDrained(s: State, ops: seq<Op>)
    requires CanRun(s, ops)
    decreases ops
  {
    ops != [] ==> (ops[0].Exit? ==> Drained(s, ops[0].caller)) && EveryReleaseDrained(Apply(s, ops[0]), ops[1..])
  }

  /** Outstanding holders of a group have pairwise different generations, none above the counter. */
  ghost predicate Ordered(s: State) {
    && (forall c, g :: Outstanding(s, c, g) ==> g in s.gen && s.holds[c].gen <= s.gen[g])
    && (forall c, d, g :: Outstanding(s, c, g) && Outstanding(s, d, g) && s.holds[c].gen == s.holds[d].gen ==> c == d)
  }

  lemma OrderedOwnsEntry(s: State, c: nat)
    requires Inv(s) && Ordered(s) && c in s.holds && s.holds[c].Ticket? && GuardPasses(s, s.holds[c])
    ensures s.holds[c].group in s.entry && s.entry[s.holds[c].group] == c
  {
    var g := s.holds[c].group;
    assert Outstanding(s, c, g) && Outstanding(s, s.entry[g], g);
  }

  lemma ApplyKeepsOrdered(s: State, op: Op)
    requires Inv(s) && Ordered(s) && Enabled(s, op) && (op.Exit? ==> Drained(s, op.caller))
    ensures Ordered(Apply(s, op))
  {
    var s' := Apply(s, op);
    forall c, g | Outstanding(s', c, g) ensures g in s'.gen && s'.holds[c].gen <= s'.gen[g] {
      if !(op.Preempt? && c == op.caller) { assert Outstanding(s, c, g); }
    }
    forall c, d, g | Outstanding(s', c, g) && Outstanding(s', d, g) && s'.holds[c].gen == s'.holds[d].gen
      ensures c == d
    {
      if !(op.Preempt? && c == op.caller) { assert Outstanding(s, c, g); }
      if !(op.Preempt? && d == op.caller) { assert Outstanding(s, d, g); }
    }
  }

  lemma {:induction false} DrainedNeverClearsAnother(s: State, ops: seq<Op>)
    requires Inv(s) && Ordered(s) && CanRun(s, ops) && EveryReleaseDrained(s, ops)
    ensures NeverClearsAnother(s, ops)
    ensures Ordered(Run(s, ops))
    decreases ops
  {
    if ops != [] {
      if ops[0].Exit? && s.holds[ops[0].caller].Ticket? && GuardPasses(s, s.holds[ops[0].caller]) {
        OrderedOwnsEntry(s, ops[0].caller);
      }
      ApplyKeepsInv(s, ops[0]);
      ApplyKeepsOrdered(s, ops[0]);
      DrainedNeverClearsAnother(Apply(s, ops[0]), ops[1..]);
    }
  }

  /** Every drained run is exclusive, and in it a superseded holder's release changes nothing. */
  lemma DrainedRunsSafe(ops: seq<Op>, g: string, c: nat)
    requires CanRun(FRESH, ops) && EveryReleaseDrained(FRESH, ops)
    ensures var s := Run(FRESH, ops);
            && AtMostOneLive(s, g)
            && (Superseded(s, c) ==> Leave(s, c) == s.(holds := s.holds - {c}, done := s.done + {c}))
  {
    FreshInv();
    DrainedNeverClearsAnother(FRESH, ops);
    RunTracks(FRESH, ops, g);
    RunKeepsInv(FRESH, ops);
    var s := Run(FRESH, ops);
    if Superseded(s, c) {
      if GuardPasses(s, s.holds[c]) {
        OrderedOwnsEntry(s, c);
        assert false;
      }
      StaleReleaseIsNoOpIff(s, c);
    }
  }

  // ----- how many callers it takes -----

  /** How many callers enter g in cancel-in-progress mode. */
  function Entries(ops: seq<Op>, g: string): nat {
    if ops == [] then 0 else (if ops[0].Preempt? && ops[0].group == g then 1 else 0) + Entries(ops[1..], g)
  }

  ghost predicate DistinctGens(s: State, g: string) {
    forall c, d :: Outstanding(s, c, g) && Outstanding(s, d, g) && s.holds[c].gen == s.holds[d].gen ==> c == d
  }

  /** What is still impossible after n entries: a reused generation takes three, two live holders take four. */
  ghost predicate AfterEntries(s: State, g: string, n: nat) {
    && (n == 0 ==> forall c :: !Outstanding(s, c, g))
    && (n == 1 ==> forall c, d :: Outstanding(s, c, g) && Outstanding(s, d, g) ==> c == d)
    && (n == 1 ==> forall c :: Outstanding(s, c, g) ==> g in s.gen && s.holds[c].gen <= s.gen[g])
    && (n <= 2 ==> DistinctGens(s, g) && Tracks(s, g))
    && (n <= 3 ==> AtMostOneLive(s, g))
  }

  lemma EntryCounts(s: State, c: nat, g: string, n: nat)
    requires Inv(s) && AfterEntries(s, g, n) && c !in s.holds
    ensures AfterEntries(EnterPreempting(s, c, g), g, n + 1)
  {
    var s' := EnterPreempting(s, c, g);
    if n <= 2 {
      EnterTracks(s, c, g, g);
    }
    forall d | Outstanding(s', d, g) && d != c ensures Outstanding(s, d, g) && s'.holds[d] == s.holds[d] {}
  }

  lemma StaysDistinct(s: State, s': State, g: string)
    requires DistinctGens(s, g)
    requires forall d :: Outstanding(s', d, g) ==> Outstanding(s, d, g) && s'.holds[d] == s.holds[d]
    ensures DistinctGens(s', g)
  {
  }

  /** While generations are distinct, only the registered holder's release passes the check. */
  lemma DistinctClearsOwn(s: State, c: nat, g: string)
    requires EntriesCurrent(s) && DistinctGens(s, g) && Outstanding(s, c, g)
    ensures !ClearsAnother(s, c)
  {
    if ClearsAnother(s, c) {
      assert Outstanding(s, s.entry[g], g);
    }
  }

  lemma NothingAppears(s: State, op: Op, g: string)
    requires Enabled(s, op) && !(op.Preempt? && op.group == g)
    ensures forall d :: Outstanding(Apply(s, op), d, g) ==> Outstanding(s, d, g) && Apply(s, op).holds[d] == s.holds[d]
    ensures forall d :: Live(Apply(s, op), d, g) ==> Live(s, d, g)
  {
  }

  lemma TracksKept(s: State, op: Op, g: string)
    requires Inv(s) && DistinctGens(s, g) && Tracks(s, g) && Enabled(s, op) && !(op.Preempt? && op.group == g)
    ensures Tracks(Apply(s, op), g)
  {
    if op.Exit? && Outstanding(s, op.caller, g) {
      DistinctClearsOwn(s, op.caller, g);
      ReleaseTracksIff(s, op.caller, g);
    } else {
      NothingAppears(s, op, g);
    }
  }

  lemma LoneCurrent(s: State, op: Op, g: string)
    requires AfterEntries(s, g, 1) && Enabled(s, op) && !(op.Preempt? && op.group == g)
    ensures forall c :: Outstanding(Apply(s, op), c, g) ==>
              g in Apply(s, op).gen && Apply(s, op).holds[c].gen <= Apply(s, op).gen[g]
  {
    NothingAppears(s, op, g);
    var s' := Apply(s, op);
    forall c | Outstanding(s', c, g) ensures g in s'.gen && s'.holds[c].gen <= s'.gen[g] {
      assert Outstanding(s, c, g);
      if op.Exit? {
        assert op.caller != c;
        assert !Outstanding(s, op.caller, g);
      }
    }
  }

  lemma NoEntryKeeps(s: State, op: Op, g: string, n: nat)
    requires Inv(s) && AfterEntries(s, g, n) && Enabled(s, op) && !(op.Preempt? && op.group == g)
    ensures AfterEntries(Apply(s, op), g, n)
  {
    NothingAppears(s, op, g);
    if n <= 2 {
      StaysDistinct(s, Apply(s, op), g);
      TracksKept(s, op, g);
    }
    if n == 1 {
      LoneCurrent(s, op, g);
    }
  }

  lemma {:induction false} RunCounts(s: State, ops: seq<Op>, g: string, n: nat)
    requires Inv(s) && AfterEntries(s, g, n) && CanRun(s, ops)
    ensures AfterEntries(Run(s, ops), g, n + Entries(ops, g))
    decreases ops
  {
    if ops != [] {
      ApplyKeepsInv(s, ops[0]);
      if ops[0].Preempt? && ops[0].group == g {
        EntryCounts(s, ops[0].caller, g, n);
        RunCounts(Apply(s, ops[0]), ops[1..], g, n + 1);
      } else {
        NoEntryKeeps(s, ops[0], g, n);
        RunCounts(Apply(s, ops[0]), ops[1..], g, n);
      }
    }
  }

  /** Two live holders take at least four entries into the group. */
  lemma SharingTakesFour(ops: seq<Op>, g: string)
    requires CanRun(FRESH, ops) && !AtMostOneLive(Run(FRESH, ops), g)
    ensures Entries(ops, g) >= 4
  {
    FreshInv();
    RunCounts(FRESH, ops, g, 0);
  }

  // ----- the discipline is exactly what is needed -----

  /** Later callers entering g, and the releases of holders that were outstanding in s. */
  predicate EntersAndStaleReleases(s: State, ops: seq<Op>, g: string) {
    forall i :: 0 <= i < |ops| ==>
      (ops[i].Preempt? && ops[i].group == g) || (ops[i].Exit? && Outstanding(s, ops[i].caller, g))
  }

  ghost predicate CanShareGroup(s: State, g: string) {
    exists ops :: EntersAndStaleReleases(s, ops, g) && CanRun(s, ops) && !AtMostOneLive(Run(s, ops), g)
  }

  function Enters(base: nat, k: nat, g: string): (ops: seq<Op>)
    ensures |ops| == k
    ensures forall i :: 0 <= i < k ==> ops[i].Preempt? && ops[i].group == g
    decreases k
  {
    if k == 0 then [] else [Preempt(base, g)] + Enters(base + 1, k - 1, g)
  }

  ghost predicate Below(s: State, n: nat) {
    && (forall c :: c in s.holds ==> c < n)
    && (forall c :: c in s.done ==> c < n)
    && (forall g :: g in s.entry ==> s.entry[g] < n)
  }

  lemma EnterOnce(s: State, c: nat, g: string)
    requires Below(s, c) && g != ""
    ensures var s' := EnterPreempting(s, c, g);
            && Enabled(s, Preempt(c, g)) && Below(s', c + 1)
            && Lookup(s'.gen, g) == Lookup(s.gen, g) + 1
            && (forall b :: b in s.holds ==> b in s'.holds && s'.holds[b] == s.holds[b])
            && g in s'.entry && s'.entry[g] == c && Live(s', c, g)
  {
  }

  lemma {:induction false} EntersRun(s: State, base: nat, k: nat, g: string)
    requires Below(s, base) && g != ""
    ensures CanRun(s, Enters(base, k, g))
    ensures var s' := Run(s, Enters(base, k, g));
            && Below(s', base + k)
            && Lookup(s'.gen, g) == Lookup(s.gen, g) + k
            && (forall b :: b in s.holds ==> b in s'.holds && s'.holds[b] == s.holds[b])
            && (k > 0 ==> g in s'.entry && s'.entry[g] == base + k - 1 && Live(s', base + k - 1, g))
    decreases k
  {
    if k > 0 {
      EnterOnce(s, base, g);
      var s1 := EnterPreempting(s, base, g);
      EntersRun(s1, base + 1, k - 1, g);
      var ops := Enters(base, k, g);
      assert ops[0] == Preempt(base, g) && ops[1..] == Enters(base + 1, k - 1, g);
      assert Run(s, ops) == Run(s1, ops[1..]);
    }
  }

  lemma {:induction false} RunConcat(s: State, a: seq<Op>, b: seq<Op>)
    requires CanRun(s, a) && CanRun(Run(s, a), b)
    ensures CanRun(s, a + b) && Run(s, a + b) == Run(Run(s, a), b)
    decreases a
  {
    if a == [] {
      assert a + b == b;
    } else {
      RunConcat(Apply(s, a[0]), a[1..], b);
      assert (a + b)[0] == a[0] && (a + b)[1..] == a[1..] + b;
    }
  }

  lemma {:induction false} Bound(xs: set<nat>) returns (n: nat)
    ensures forall x :: x in xs ==> x < n
  {
    if xs == {} {
      n := 0;
    } else {
      var y :| y in xs;
      n := Bound(xs - {y});
      n := if n <= y then y + 1 else n;
      forall x | x in xs ensures x < n {
        if x != y { assert x in xs - {y}; }
      }
    }
  }

  /** Whatever generation a stale holder carries, the counter can be brought back to it. */
  lemma StaleHolderCanHarm(s: State, b: nat, g: string)
    requires Inv(s) && Outstanding(s, b, g) && g !in s.gen && g != ""
    ensures CanShareGroup(s, g)
  {
    var base := Bound(s.holds.Keys + s.done);
    assert Below(s, base);
    var k := s.holds[b].gen;
    EntersRun(s, base, k, g);
    HarmAfterEnters(s, Enters(base, k, g), b, base + k - 1, base + k, g);
  }

  /** Entries that bring the generation back to b's; then b's release and one more entry. */
  lemma HarmAfterEnters(s: State, ops: seq<Op>, b: nat, d: nat, e: nat, g: string)
    requires Outstanding(s, b, g) && forall i :: 0 <= i < |ops| ==> ops[i].Preempt? && ops[i].group == g
    requires CanRun(s, ops) && b in Run(s, ops).holds && Run(s, ops).holds[b] == s.holds[b]
    requires GuardPasses(Run(s, ops), s.holds[b]) && Live(Run(s, ops), d, g)
    requires d != b && e != b && e !in Run(s, ops).holds && e !in Run(s, ops).done && g != ""
    ensures CanShareGroup(s, g)
  {
    StaleReleaseThenEnter(Run(s, ops), b, d, e, g);
    RunConcat(s, ops, [Exit(b), Preempt(e, g)]);
    EntersThenStale(s, ops, b, e, g);
  }

  lemma EntersThenStale(s: State, ops: seq<Op>, b: nat, e: nat, g: string)
    requires Outstanding(s, b, g) && forall i :: 0 <= i < |ops| ==> ops[i].Preempt? && ops[i].group == g
    ensures EntersAndStaleReleases(s, ops + [Exit(b), Preempt(e, g)], g)
  {
  }

  /** b's release clears d's entry, so the next caller, e, shares the group with d. */
  lemma StaleReleaseThenEnter(s: State, b: nat, d: nat, e: nat, g: string)
    requires b in s.holds && s.holds[b].Ticket? && s.holds[b].group == g && GuardPasses(s, s.holds[b])
    requires Live(s, d, g) && d != b && e !in s.holds && e !in s.done && e != b && g != ""
    ensures var ops := [Exit(b), Preempt(e, g)];
            CanRun(s, ops) && Live(Run(s, ops), d, g) && Live(Run(s, ops), e, g) && d != e
  {
    var ops := [Exit(b), Preempt(e, g)];
    var s2 := Apply(s, Exit(b));
    var s3 := Apply(s2, Preempt(e, g));
    assert Live(s3, d, g) && Live(s3, e, g);
    assert ops[1..] == [Preempt(e, g)] && ops[1..][1..] == [];
    assert Run(s2, ops[1..]) == s3;
  }

  lemma {:induction false} EntersAloneAreSafe(s: State, ops: seq<Op>, g: string)
    requires Inv(s) && Tracks(s, g) && CanRun(s, ops)
    requires forall i :: 0 <= i < |ops| ==> ops[i].Preempt?
    ensures Tracks(Run(s, ops), g)
    decreases ops
  {
    if ops != [] {
      assert ops[0].Preempt?;
      ApplyKeepsInv(s, ops[0]);
      ApplyTracks(s, ops[0], g);
      EntersAloneAreSafe(Apply(s, ops[0]), ops[1..], g);
    }
  }

  /**
    The condition is exact. After a release that clears the generation, entering callers and the
    releases of holders outstanding at that moment can lead to two live holders iff the release
    was not drained.
   */
  lemma ClearingReleaseHarmfulIff(s: State, c: nat, g: string)
    requires Inv(s) && Ordered(s) && Tracks(s, g) && g != ""
    requires Outstanding(s, c, g) && GuardPasses(s, s.holds[c])
    ensures CanShareGroup(Leave(s, c), g) <==> !Drained(s, c)
  {
    var s1 := Leave(s, c);
    ApplyKeepsInv(s, Exit(c));
    if !Drained(s, c) {
      var b :| Outstanding(s, b, g) && b != c;
      assert Outstanding(s1, b, g);
      StaleHolderCanHarm(s1, b, g);
    } else {
      forall d ensures !Outstanding(s1, d, g) {
        if Outstanding(s1, d, g) { assert Outstanding(s, d, g); }
      }
      forall ops | EntersAndStaleReleases(s1, ops, g) && CanRun(s1, ops) ensures AtMostOneLive(Run(s1, ops), g) {
        assert forall d :: Live(s1, d, g) ==> Outstanding(s1, d, g);
        EntersAloneAreSafe(s1, ops, g);
      }
    }
  }

  const HAZARD: seq<Op> := [Preempt(0, "g"), Preempt(1, "g"), Exit(1), Preempt(2, "g"), Exit(0), Preempt(3, "g")]

  lemma HazardFirstHalf()
    ensures CanRun(FRESH, HAZARD[..3])
    ensures Run(FRESH, HAZARD[..3]) == State(map[], map[], map[], map[0 := Ticket("g", 1)], {0, 1})
  {
    assert HAZARD[..0] == [];
    RunOne(FRESH, HAZARD, 0);
    var s1 := Apply(FRESH, HAZARD[0]);
    assert s1 == State(map[], map["g" := 1], map["g" := 0], map[0 := Ticket("g", 1)], {});
    RunOne(FRESH, HAZARD, 1);
    var s2 := Apply(s1, HAZARD[1]);
    assert s2 == State(map[], map["g" := 2], map["g" := 1], map[0 := Ticket("g", 1), 1 := Ticket("g", 2)], {0});
    RunOne(FRESH, HAZARD, 2);
  }

  lemma HazardFive()
    ensures CanRun(FRESH, HAZARD[..5])
    ensures Run(FRESH, HAZARD[..5]) == State(map[], map[], map[], map[2 := Ticket("g", 1)], {0, 1})
  {
    HazardFirstHalf();
    var s3 := State(map[], map[], map[], map[0 := Ticket("g", 1)], {0, 1});
    RunOne(FRESH, HAZARD, 3);
    var s4 := Apply(s3, HAZARD[3]);
    assert s4 == State(map[], map["g" := 1], map["g" := 2], map[0 := Ticket("g", 1), 2 := Ticket("g", 1)], {0, 1});
    RunOne(FRESH, HAZARD, 4);
    var s5 := Apply(s4, HAZARD[4]);
    assert s5 == State(map[], map[], map[], map[2 := Ticket("g", 1)], {0, 1});
  }

  /** Generation 1 is reused: caller 0's late release clears caller 2's entry, and callers 2 and 3 are live together. */
  lemma GenerationReuse()
    ensures CanRun(FRESH, HAZARD[..5]) && CanRun(FRESH, HAZARD)
    ensures var s5 := Run(FRESH, HAZARD[..5]); "g" !in s5.entry && Live(s5, 2, "g")
    ensures var s6 := Run(FRESH, HAZARD); Live(s6, 2, "g") && Live(s6, 3, "g")
  {
    HazardFive();
    RunOne(FRESH, HAZARD, 5);
    assert HAZARD[..6] == HAZARD;
  }

  lemma RunOne(s: State, ops: seq<Op>, i: nat)
    requires i < |ops| && CanRun(s, ops[..i]) && Enabled(Run(s, ops[..i]), ops[i])
    ensures CanRun(s, ops[..i + 1]) && Run(s, ops[..i + 1]) == Apply(Run(s, ops[..i]), ops[i])
  {
    var last := [ops[i]];
    var s1 := Run(s, ops[..i]);
    var s2 := Apply(s1, ops[i]);
    assert last[0] == ops[i] && last[1..] == [];
    assert CanRun(s2, []) && Run(s2, []) == s2;
    assert CanRun(s1, last) && Run(s1, last) == Run(s2, last[1..]);
    RunConcat(s, ops[..i], last);
    assert ops[..i + 1] == ops[..i] + last;
  }
}
