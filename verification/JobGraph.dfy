/**
  TopoSortJobs: the three-colour depth-first search that orders a workflow's jobs
  (internal/engine/workflow_run.go). A workflow is a map from job names to their needs lists.
 */
module JobGraph {
  import opened Outcomes
  import opened Text

  type Jobs = map<string, seq<string>>

  datatype Color = Visiting | Done   // absent: unvisited

  datatype Error = Cycle(name: string) | UnknownJob(name: string) | UnknownNeed(name: string, need: string)

  datatype Search = Search(color: map<string, Color>, order: seq<string>)

  // ----- the search as a function -----

  function Unvisited(jobs: Jobs, st: Search): set<string> {
    jobs.Keys - st.color.Keys
  }

  function Visit(jobs: Jobs, st: Search, name: string): (r: Result<Search, Error>)
    ensures r.Ok? ==> st.color.Keys <= r.value.color.Keys
    decreases Unvisited(jobs, st), 1, 0
  {
    if name in st.color && st.color[name].Done? then Ok(st)
    else if name in st.color then Err(Cycle(name))
    else if name !in jobs then Err(UnknownJob(name))
    else
      assert name in Unvisited(jobs, st) && name !in Unvisited(jobs, st.(color := st.color[name := Visiting]));
      var r := VisitNeeds(jobs, st.(color := st.color[name := Visiting]), name, jobs[name]);
      if r.Err? then r
      else Ok(Search(r.value.color[name := Done], r.value.order + [name]))
  }

  function VisitNeeds(jobs: Jobs, st: Search, name: string, needs: seq<string>): (r: Result<Search, Error>)
    ensures r.Ok? ==> st.color.Keys <= r.value.color.Keys
    decreases Unvisited(jobs, st), 2, |needs|
  {
    if needs == [] then Ok(st)
    else if needs[0] !in jobs then Err(UnknownNeed(name, needs[0]))
    else
      var r := Visit(jobs, st, needs[0]);
      if r.Err? then r else VisitNeeds(jobs, r.value, name, needs[1..])
  }

  function VisitAll(jobs: Jobs, st: Search, names: seq<string>): Result<Search, Error>
    decreases names
  {
    if names == [] then Ok(st)
    else
      var r := Visit(jobs, st, names[0]);
      if r.Err? then r else VisitAll(jobs, r.value, names[1..])
  }

  const START := Search(map[], [])

  /** The whole sort, given the order in which ranging over the map happened to list its keys. */
  function TopoSort(jobs: Jobs, listing: seq<string>): Result<Search, Error> {
    VisitAll(jobs, START, Sort(listing))
  }

  // ----- the search as the source runs it -----

  class TopoSorter {
    const jobs: Jobs
    var state: map<string, Color>
    var order: seq<string>

    ghost function Snapshot(): Search
      reads this
    {
      Search(state, order)
    }

    constructor (jobs: Jobs)
      ensures this.jobs == jobs && Snapshot() == START
    {
      this.jobs := jobs;
      state, order := map[], [];
    }

    method VisitJob(name: string) returns (err: Option<Error>)
      modifies this
      ensures match Visit(jobs, old(Snapshot()), name)
              case Ok(st) => err == None && Snapshot() == st
              case Err(e) => err == Some(e)
      decreases Unvisited(jobs, Snapshot()), 1, 0
    {
      if name in state {
        return if state[name].Done? then None else Some(Cycle(name));
      }
      if name !in jobs {
        return Some(UnknownJob(name));
      }
      ghost var before := Snapshot();
      state := state[name := Visiting];
      assert name in Unvisited(jobs, before) && name !in Unvisited(jobs, Snapshot());
      ghost var entered := Snapshot();
      var needs := jobs[name];
      var i := 0;
      while i < |needs|
        invariant 0 <= i <= |needs|
        invariant entered.color.Keys <= state.Keys
        invariant VisitNeeds(jobs, entered, name, needs) == VisitNeeds(jobs, Snapshot(), name, needs[i..])
      {
        assert needs[i..][0] == needs[i] && needs[i..][1..] == needs[i + 1..];
        if needs[i] !in jobs {
          return Some(UnknownNeed(name, needs[i]));
        }
        assert Unvisited(jobs, Snapshot()) < Unvisited(jobs, before);
        err := VisitJob(needs[i]);
        if err.Some? {
          return;
        }
        i := i + 1;
      }
      state := state[name := Done];
      order := order + [name];
      return None;
    }
  }

  /** Ranging over the map lists its keys in an unspecified order, which sorting then forgets. */
  method TopoSortJobs(jobs: Jobs) returns (r: Result<seq<string>, Error>)
    ensures forall listing :: Lists(listing, jobs.Keys) ==>
              match TopoSort(jobs, listing)
              case Ok(st) => r == Ok(st.order)
              case Err(e) => r == Err(e)
    ensures r.Ok? <==> AllNeedsKnown(jobs) && !HasCycle(jobs)
    ensures r.Ok? ==> Lists(r.value, jobs.Keys) && NeedsEarlier(jobs, r.value)
  {
    var listing := ListNames(jobs);
    forall other | Lists(other, jobs.Keys) ensures TopoSort(jobs, other) == TopoSort(jobs, listing) {
      OrderIgnoresListing(jobs, listing, other);
    }
    TopoSortCorrect(jobs, listing);
    r := VisitInOrder(jobs, Sort(listing));
  }

  method ListNames(jobs: Jobs) returns (listing: seq<string>)
    ensures Lists(listing, jobs.Keys)
  {
    listing := [];
    var left := jobs.Keys;
    while left != {}
      invariant left <= jobs.Keys && Lists(listing, jobs.Keys - left)
    {
      var n :| n in left;
      listing, left := listing + [n], left - {n};
    }
    assert jobs.Keys - left == jobs.Keys;
  }

  method VisitInOrder(jobs: Jobs, names: seq<string>) returns (r: Result<seq<string>, Error>)
    ensures match VisitAll(jobs, START, names)
            case Ok(st) => r == Ok(st.order)
            case Err(e) => r == Err(e)
  {
    var sorter := new TopoSorter(jobs);
    var i := 0;
    while i < |names|
      invariant 0 <= i <= |names| && sorter.jobs == jobs
      invariant VisitAll(jobs, START, names) == VisitAll(jobs, sorter.Snapshot(), names[i..])
    {
      assert names[i..][0] == names[i] && names[i..][1..] == names[i + 1..];
      var err := sorter.VisitJob(names[i]);
      if err.Some? {
        return Err(err.value);
      }
      i := i + 1;
    }
    return Ok(sorter.order);
  }

  // ----- what a search keeps -----

  /** Each name needs the next one. */
  predicate IsPath(jobs: Jobs, p: seq<string>) {
    forall i :: 0 <= i < |p| - 1 ==> p[i] in jobs && p[i + 1] in jobs[p[i]]
  }

  ghost predicate HasCycle(jobs: Jobs) {
    exists p :: |p| >= 2 && IsPath(jobs, p) && p[0] == p[|p| - 1]
  }

  predicate AllNeedsKnown(jobs: Jobs) {
    forall n, d :: n in jobs && d in jobs[n] ==> d in jobs
  }

  predicate NeedsEarlier(jobs: Jobs, order: seq<string>) {
    forall j, d :: 0 <= j < |order| && order[j] in jobs && d in jobs[order[j]] ==> d in order[..j]
  }

  /** Done jobs are the ordered ones, each after its needs; visiting jobs are the call stack, a path of needs. */
  ghost predicate SearchInv(jobs: Jobs, st: Search, stack: seq<string>) {
    && Distinct(st.order)
    && st.color.Keys <= jobs.Keys
    && (forall n :: n in st.order <==> n in st.color && st.color[n].Done?)
    && (forall n :: n in stack <==> n in st.color && st.color[n].Visiting?)
    && NeedsEarlier(jobs, st.order)
    && IsPath(jobs, stack)
  }

  /** name is about to be visited from the top of the stack. */
  predicate Calls(jobs: Jobs, stack: seq<string>, name: string) {
    stack == [] || (stack[|stack| - 1] in jobs && name in jobs[stack[|stack| - 1]])
  }

  ghost predicate HonestError(jobs: Jobs, e: Error) {
    match e
    case Cycle(_) => HasCycle(jobs)
    case UnknownJob(_) => false
    case UnknownNeed(n, d) => n in jobs && d in jobs[n] && d !in jobs
  }

  lemma StackHitIsCycle(jobs: Jobs, stack: seq<string>, name: string)
    requires IsPath(jobs, stack) && Calls(jobs, stack, name) && name in stack
    ensures HasCycle(jobs)
  {
    var i :| 0 <= i < |stack| && stack[i] == name;
    var p := stack[i..] + [name];
    assert p[0] == p[|p| - 1] && |p| >= 2;
    assert IsPath(jobs, p);
  }

  lemma PopStack(jobs: Jobs, st: Search, stack: seq<string>, name: string)
    requires SearchInv(jobs, st, stack + [name]) && name !in stack && name in jobs
    requires forall d :: d in jobs[name] ==> d in st.order
    ensures SearchInv(jobs, Search(st.color[name := Done], st.order + [name]), stack)
  {
    var st' := Search(st.color[name := Done], st.order + [name]);
    assert name in stack + [name];
    assert forall n :: n in stack ==> n in stack + [name];
    assert forall n :: n in stack + [name] && n != name ==> n in stack;
    assert name !in st.order;
    forall j, d | 0 <= j < |st'.order| && st'.order[j] in jobs && d in jobs[st'.order[j]] ensures d in st'.order[..j] {
      if j < |st.order| {
        assert st'.order[..j] == st.order[..j];
      } else {
        assert st'.order[..j] == st.order;
      }
    }
    forall i | 0 <= i < |stack| - 1 ensures stack[i] in jobs && stack[i + 1] in jobs[stack[i]] {
      assert (stack + [name])[i] == stack[i] && (stack + [name])[i + 1] == stack[i + 1];
    }
  }

  lemma {:induction false} VisitCorrect(jobs: Jobs, st: Search, name: string, stack: seq<string>)
    requires SearchInv(jobs, st, stack) && Calls(jobs, stack, name) && name in jobs
    ensures match Visit(jobs, st, name)
            case Ok(st') => SearchInv(jobs, st', stack) && name in st'.order && st.order <= st'.order
            case Err(e) => HonestError(jobs, e)
    decreases Unvisited(jobs, st), 1, 0
  {
    if name in st.color {
      if st.color[name].Visiting? {
        StackHitIsCycle(jobs, stack, name);
      }
    } else {
      var st1 := st.(color := st.color[name := Visiting]);
      var stack1 := stack + [name];
      assert name in Unvisited(jobs, st) && name !in Unvisited(jobs, st1);
      PushStack(jobs, st, stack, name);
      VisitNeedsCorrect(jobs, st1, name, jobs[name], stack);
      var r := VisitNeeds(jobs, st1, name, jobs[name]);
      if r.Ok? {
        PopStack(jobs, r.value, stack, name);
      }
    }
  }

  lemma PushStack(jobs: Jobs, st: Search, stack: seq<string>, name: string)
    requires SearchInv(jobs, st, stack) && Calls(jobs, stack, name) && name in jobs && name !in st.color
    ensures SearchInv(jobs, st.(color := st.color[name := Visiting]), stack + [name]) && name !in stack
  {
    var stack1 := stack + [name];
    assert forall n :: n in stack1 <==> n in stack || n == name;
    forall i | 0 <= i < |stack1| - 1 ensures stack1[i] in jobs && stack1[i + 1] in jobs[stack1[i]] {
      if i < |stack| - 1 {
        assert stack1[i] == stack[i] && stack1[i + 1] == stack[i + 1];
      }
    }
  }

  lemma {:induction false} VisitNeedsCorrect(jobs: Jobs, st: Search, name: string, needs: seq<string>,
                                             stack: seq<string>)
    requires SearchInv(jobs, st, stack + [name]) && name in jobs
    requires forall d :: d in needs ==> d in jobs[name]
    ensures match VisitNeeds(jobs, st, name, needs)
            case Ok(st') =>
              SearchInv(jobs, st', stack + [name]) && st.order <= st'.order && forall d :: d in needs ==> d in st'.order
            case Err(e) => HonestError(jobs, e)
    decreases Unvisited(jobs, st), 2, |needs|
  {
    if needs != [] && needs[0] in jobs {
      VisitCorrect(jobs, st, needs[0], stack + [name]);
      var r := Visit(jobs, st, needs[0]);
      if r.Ok? {
        VisitNeedsCorrect(jobs, r.value, name, needs[1..], stack);
        var r' := VisitNeeds(jobs, r.value, name, needs[1..]);
        if r'.Ok? {
          forall d | d in needs ensures d in r'.value.order {
            assert d == needs[0] || d in needs[1..];
          }
        }
      }
    }
  }

  lemma {:induction false} VisitAllCorrect(jobs: Jobs, st: Search, names: seq<string>)
    requires SearchInv(jobs, st, []) && forall n :: n in names ==> n in jobs
    ensures match VisitAll(jobs, st, names)
            case Ok(st') =>
              SearchInv(jobs, st', []) && st.order <= st'.order && forall n :: n in names ==> n in st'.order
            case Err(e) => HonestError(jobs, e)
    decreases names
  {
    if names != [] {
      VisitCorrect(jobs, st, names[0], []);
      var r := Visit(jobs, st, names[0]);
      if r.Ok? {
        VisitAllCorrect(jobs, r.value, names[1..]);
        var r' := VisitAll(jobs, r.value, names[1..]);
        if r'.Ok? {
          forall n | n in names ensures n in r'.value.order {
            assert n == names[0] || n in names[1..];
          }
        }
      }
    }
  }

  // ----- soundness and completeness -----

  /** An order with every need earlier rules out cycles: positions fall along a path. */
  lemma {:induction false} PathDescends(jobs: Jobs, order: seq<string>, p: seq<string>, j: nat)
    requires NeedsEarlier(jobs, order) && IsPath(jobs, p) && |p| >= 2
    requires j < |order| && order[j] == p[0]
    ensures exists k :: 0 <= k < j && order[k] == p[|p| - 1]
    decreases |p|
  {
    assert p[1] in order[..j];
    var k :| 0 <= k < j && order[k] == p[1];
    if |p| > 2 {
      var tail := p[1..];
      assert IsPath(jobs, tail);
      PathDescends(jobs, order, tail, k);
    }
  }

  lemma OrderedIsAcyclic(jobs: Jobs, order: seq<string>)
    requires NeedsEarlier(jobs, order) && Lists(order, jobs.Keys)
    ensures !HasCycle(jobs) && AllNeedsKnown(jobs)
  {
    forall p | |p| >= 2 && IsPath(jobs, p) ensures p[0] != p[|p| - 1] {
      assert p[0] in order;
      var j :| 0 <= j < |order| && order[j] == p[0];
      PathDescends(jobs, order, p, j);
    }
    forall n, d | n in jobs && d in jobs[n] ensures d in jobs {
      assert n in order;
      var j :| 0 <= j < |order| && order[j] == n;
      assert d in order[..j];
    }
  }

  /**
    Success iff every need names a job and no job needs itself through others; a success is a
    permutation with every need earlier.
   */
  lemma TopoSortCorrect(jobs: Jobs, listing: seq<string>)
    requires Lists(listing, jobs.Keys)
    ensures var r := TopoSort(jobs, listing);
            && (r.Ok? <==> AllNeedsKnown(jobs) && !HasCycle(jobs))
            && (r.Ok? ==> Lists(r.value.order, jobs.Keys) && NeedsEarlier(jobs, r.value.order))
            && (r.Err? ==> HonestError(jobs, r.error) && !r.error.UnknownJob?)
  {
    SortLists(listing, jobs.Keys);
    VisitAllCorrect(jobs, START, Sort(listing));
    var r := TopoSort(jobs, listing);
    if r.Ok? {
      OrderedIsAcyclic(jobs, r.value.order);
    }
  }

  /** The order is a function of the map's contents alone. */
  lemma OrderIgnoresListing(jobs: Jobs, a: seq<string>, b: seq<string>)
    requires Lists(a, jobs.Keys) && Lists(b, jobs.Keys)
    ensures TopoSort(jobs, a) == TopoSort(jobs, b)
  {
    SortForgetsOrder(a, b, jobs.Keys);
  }

  // ----- which of the possible orders it is -----

  /** target is from, or is reached from it by following needs. */
  ghost predicate Reaches(jobs: Jobs, from: string, target: string) {
    exists p :: ReachPath(jobs, p, from, target)
  }

  predicate ReachPath(jobs: Jobs, p: seq<string>, from: string, target: string) {
    p != [] && IsPath(jobs, p) && p[0] == from && p[|p| - 1] == target
  }

  lemma ReachesItself(jobs: Jobs, name: string)
    ensures Reaches(jobs, name, name)
  {
    assert ReachPath(jobs, [name], name, name);
  }

  lemma ReachesFurther(jobs: Jobs, name: string, need: string, target: string)
    requires name in jobs && need in jobs[name] && Reaches(jobs, need, target)
    ensures Reaches(jobs, name, target)
  {
    var p :| ReachPath(jobs, p, need, target);
    var q := [name] + p;
    assert forall i :: 0 < i < |q| ==> q[i] == p[i - 1];
    assert ReachPath(jobs, q, name, target);
  }

  /** Whatever a visit adds to the order is reached from where it began. */
  lemma {:induction false} VisitReaches(jobs: Jobs, st: Search, name: string)
    requires Visit(jobs, st, name).Ok?
    ensures var order := Visit(jobs, st, name).value.order;
            st.order <= order && forall n :: n in order && n !in st.order ==> Reaches(jobs, name, n)
    decreases Unvisited(jobs, st), 1, 0
  {
    if name !in st.color {
      var st1 := st.(color := st.color[name := Visiting]);
      assert name in Unvisited(jobs, st) && name !in Unvisited(jobs, st1);
      VisitNeedsReaches(jobs, st1, name, jobs[name]);
      ReachesItself(jobs, name);
    }
  }

  lemma {:induction false} VisitNeedsReaches(jobs: Jobs, st: Search, name: string, needs: seq<string>)
    requires VisitNeeds(jobs, st, name, needs).Ok? && name in jobs && forall d :: d in needs ==> d in jobs[name]
    ensures var order := VisitNeeds(jobs, st, name, needs).value.order;
            st.order <= order && forall n :: n in order && n !in st.order ==> Reaches(jobs, name, n)
    decreases Unvisited(jobs, st), 2, |needs|
  {
    if needs != [] {
      VisitReaches(jobs, st, needs[0]);
      var st1 := Visit(jobs, st, needs[0]).value;
      VisitNeedsReaches(jobs, st1, name, needs[1..]);
      forall n | n in st1.order && n !in st.order ensures Reaches(jobs, name, n) {
        ReachesFurther(jobs, name, needs[0], n);
      }
    }
  }

  ghost predicate ReachedFromSome(jobs: Jobs, names: seq<string>, k: nat, n: string)
    requires k <= |names|
  {
    exists i :: 0 <= i < k && Reaches(jobs, names[i], n)
  }

  lemma {:induction false} VisitAllConcat(jobs: Jobs, st: Search, a: seq<string>, b: seq<string>)
    requires VisitAll(jobs, st, a + b).Ok?
    ensures VisitAll(jobs, st, a).Ok? && VisitAll(jobs, st, a + b) == VisitAll(jobs, VisitAll(jobs, st, a).value, b)
    decreases a
  {
    if a == [] {
      assert a + b == b;
    } else {
      assert (a + b)[0] == a[0] && (a + b)[1..] == a[1..] + b;
      VisitAllConcat(jobs, Visit(jobs, st, a[0]).value, a[1..], b);
    }
  }

  lemma {:induction false} VisitAllReaches(jobs: Jobs, st: Search, names: seq<string>)
    requires VisitAll(jobs, st, names).Ok?
    ensures var order := VisitAll(jobs, st, names).value.order;
            st.order <= order && forall n :: n in order && n !in st.order ==> ReachedFromSome(jobs, names, |names|, n)
    decreases names
  {
    if names != [] {
      VisitReaches(jobs, st, names[0]);
      var st1 := Visit(jobs, st, names[0]).value;
      VisitAllReaches(jobs, st1, names[1..]);
      var order := VisitAll(jobs, st, names).value.order;
      forall n | n in order && n !in st.order ensures ReachedFromSome(jobs, names, |names|, n) {
        if n !in st1.order {
          assert ReachedFromSome(jobs, names[1..], |names| - 1, n);
          var i :| 0 <= i < |names| - 1 && Reaches(jobs, names[1..][i], n);
          assert names[i + 1] == names[1..][i];
        } else {
          assert Reaches(jobs, names[0], n);
        }
      }
    }
  }

  /**
    The order is alphabetical except where needs force otherwise: of two jobs, the later name comes
    first only if some job no later than the earlier name needs it, directly or through others.
   */
  lemma OrderFollowsNames(jobs: Jobs, listing: seq<string>, i: nat, j: nat) returns (root: string)
    requires Lists(listing, jobs.Keys) && TopoSort(jobs, listing).Ok?
    requires var order := TopoSort(jobs, listing).value.order;
             i < j < |order| && order[i] != order[j] && LessEq(order[j], order[i])
    ensures var order := TopoSort(jobs, listing).value.order;
            root in jobs && LessEq(root, order[j]) && Reaches(jobs, root, order[i])
  {
    var names, order := Sort(listing), TopoSort(jobs, listing).value.order;
    TopoSortCorrect(jobs, listing);
    SortLists(listing, jobs.Keys);
    assert order[j] in order && order[j] in names;
    var k :| 0 <= k < |names| && names[k] == order[j];
    var done := VisitedFirst(jobs, names, k);
    DoneByThen(jobs, listing, k);
    BeforeDone(order, done, i, j);
    assert ReachedFromSome(jobs, names, k + 1, order[i]);
    var r :| 0 <= r < k + 1 && Reaches(jobs, names[r], order[i]);
    root := names[r];
    assert names[r] in names;
    if r == k {
      LessEqTotal(root, root);
    }
  }

  /** What the first k + 1 visits put into the order, and where it is reached from. */
  lemma VisitedFirst(jobs: Jobs, names: seq<string>, k: nat) returns (done: seq<string>)
    requires k < |names| && VisitAll(jobs, START, names).Ok?
    ensures VisitAll(jobs, START, names[..k + 1]).Ok? && done == VisitAll(jobs, START, names[..k + 1]).value.order
    ensures done <= VisitAll(jobs, START, names).value.order
    ensures forall n :: n in done ==> ReachedFromSome(jobs, names, k + 1, n)
  {
    var head, tail := names[..k + 1], names[k + 1..];
    assert names == head + tail;
    VisitAllConcat(jobs, START, head, tail);
    done := VisitAll(jobs, START, head).value.order;
    VisitAllReaches(jobs, VisitAll(jobs, START, head).value, tail);
    VisitAllReaches(jobs, START, head);
    forall n | n in done ensures ReachedFromSome(jobs, names, k + 1, n) {
      ReachedFromMore(jobs, names, k + 1, n);
    }
  }

  lemma DoneByThen(jobs: Jobs, listing: seq<string>, k: nat)
    requires Lists(listing, jobs.Keys) && k < |Sort(listing)| && VisitAll(jobs, START, Sort(listing)[..k + 1]).Ok?
    ensures Sort(listing)[k] in VisitAll(jobs, START, Sort(listing)[..k + 1]).value.order
  {
    SortLists(listing, jobs.Keys);
    var head := Sort(listing)[..k + 1];
    forall n | n in head ensures n in jobs {
      assert n in Sort(listing);
    }
    VisitAllCorrect(jobs, START, head);
    assert head[k] in head;
  }

  /** What stands before something done is done. */
  lemma BeforeDone(order: seq<string>, done: seq<string>, i: nat, j: nat)
    requires Distinct(order) && done <= order && i < j < |order| && order[j] in done
    ensures order[i] in done
  {
    var k :| 0 <= k < |done| && done[k] == order[j];
    assert order[k] == done[k];
    assert k == j;
    assert done[i] == order[i];
  }

  lemma {:induction false} VisitNeedsConcat(jobs: Jobs, st: Search, name: string, a: seq<string>, b: seq<string>)
    requires VisitNeeds(jobs, st, name, a + b).Ok?
    ensures VisitNeeds(jobs, st, name, a).Ok?
    ensures VisitNeeds(jobs, st, name, a + b) == VisitNeeds(jobs, VisitNeeds(jobs, st, name, a).value, name, b)
    decreases a
  {
    if a == [] {
      assert a + b == b;
    } else {
      assert (a + b)[0] == a[0] && (a + b)[1..] == a[1..] + b;
      VisitNeedsConcat(jobs, Visit(jobs, st, a[0]).value, name, a[1..], b);
    }
  }

  lemma {:induction false} NeedsReach(jobs: Jobs, st: Search, name: string, needs: seq<string>)
    requires VisitNeeds(jobs, st, name, needs).Ok?
    ensures var order := VisitNeeds(jobs, st, name, needs).value.order;
            st.order <= order && forall n :: n in order && n !in st.order ==> ReachedFromSome(jobs, needs, |needs|, n)
    decreases needs
  {
    if needs != [] {
      VisitReaches(jobs, st, needs[0]);
      var st1 := Visit(jobs, st, needs[0]).value;
      NeedsReach(jobs, st1, name, needs[1..]);
      var order := VisitNeeds(jobs, st, name, needs).value.order;
      forall n | n in order && n !in st.order ensures ReachedFromSome(jobs, needs, |needs|, n) {
        if n !in st1.order {
          assert ReachedFromSome(jobs, needs[1..], |needs| - 1, n);
          var i :| 0 <= i < |needs| - 1 && Reaches(jobs, needs[1..][i], n);
          assert needs[i + 1] == needs[1..][i];
        } else {
          assert Reaches(jobs, needs[0], n);
        }
      }
    }
  }

  /**
    A job's needs are visited as listed: what this visit puts into the order ahead of need i is
    reached from that need or from one listed before it.
   */
  lemma NeedsAsListed(jobs: Jobs, st: Search, name: string, stack: seq<string>, i: nat, x: string, a: nat, b: nat)
    requires SearchInv(jobs, st, stack) && Calls(jobs, stack, name) && name in jobs && name !in st.color
    requires Visit(jobs, st, name).Ok? && i < |jobs[name]|
    requires var order := Visit(jobs, st, name).value.order;
             a < b < |order| && order[a] == x && order[b] == jobs[name][i] && x !in st.order
    ensures ReachedFromSome(jobs, jobs[name], i + 1, x)
  {
    var needs, order := jobs[name], Visit(jobs, st, name).value.order;
    var st1 := st.(color := st.color[name := Visiting]);
    var head, tail := needs[..i + 1], needs[i + 1..];
    assert needs == head + tail;
    PushStack(jobs, st, stack, name);
    VisitNeedsConcat(jobs, st1, name, head, tail);
    var mid := VisitNeeds(jobs, st1, name, head).value;
    VisitNeedsCorrect(jobs, st1, name, head, stack);
    assert head[i] in head && head[i] in mid.order;
    NeedsReach(jobs, mid, name, tail);
    VisitCorrect(jobs, st, name, stack);
    BeforeDone(order, mid.order, a, b);
    NeedsReach(jobs, st1, name, head);
    ReachedFromMore(jobs, needs, i + 1, x);
  }

  lemma ReachedFromMore(jobs: Jobs, names: seq<string>, k: nat, n: string)
    requires k <= |names| && ReachedFromSome(jobs, names[..k], k, n)
    ensures ReachedFromSome(jobs, names, k, n)
  {
    var r :| 0 <= r < k && Reaches(jobs, names[..k][r], n);
    assert names[r] == names[..k][r];
  }
}
