/** The persistent cache store behind actions/cache (internal/cacheserver/store.go). */
module CacheStore {
  import opened Outcomes
  import opened Text

  /** createdAt is the reading of a clock. */
  datatype Entry = Entry(id: string, key: string, version: string, size: int, createdAt: int)

  datatype State = State(
    index: seq<Entry>,
    pending: map<string, Entry>,
    disk: seq<Entry>)              // index.json

  // ----- operations on values -----

  function ReserveOn(s: State, id: string, key: string, version: string): State {
    s.(pending := s.pending[id := Entry(id, key, version, 0, 0)])
  }

  function CommitOn(s: State, id: string, size: int, now: int): State {
    if id !in s.pending then s
    else
      var index := s.index + [s.pending[id].(size := size, createdAt := now)];
      State(index, s.pending - {id}, index)
  }

  function OpenOn(disk: seq<Entry>): State {
    State(disk, map[], disk)
  }

  // ----- looking up -----

  predicate Exact(e: Entry, key: string, version: string) {
    e.key == key && e.version == version
  }

  /** The version matches and the entry's key starts with the key asked for. */
  predicate Candidate(e: Entry, key: string, version: string) {
    e.version == version && HasPrefix(e.key, key)
  }

  ghost predicate NoneWith(index: seq<Entry>, p: Entry -> bool) {
    forall i :: 0 <= i < |index| ==> !p(index[i])
  }

  /** e is in the index, satisfies p, and no entry satisfying p is newer. */
  ghost predicate NewestWith(index: seq<Entry>, p: Entry -> bool, e: Entry) {
    e in index && p(e) && forall i :: 0 <= i < |index| && p(index[i]) ==> index[i].createdAt <= e.createdAt
  }

  /**
    The answer for the first key that any version-matching entry starts with: a newest exact match
    if there is one, otherwise a newest prefix match.
   */
  ghost predicate Answers(index: seq<Entry>, keys: seq<string>, version: string, k: nat, e: Entry) {
    && k < |keys|
    && (forall j :: 0 <= j < k ==> NoneWith(index, x => Candidate(x, keys[j], version)))
    && if NoneWith(index, x => Exact(x, keys[k], version))
       then NewestWith(index, x => Candidate(x, keys[k], version), e)
       else NewestWith(index, x => Exact(x, keys[k], version), e)
  }

  method Filter(index: seq<Entry>, p: Entry -> bool) returns (r: seq<Entry>)
    ensures forall e :: e in r <==> e in index && p(e)
  {
    r := [];
    for i := 0 to |index|
      invariant forall e :: e in r <==> e in index[..i] && p(e)
    {
      assert index[..i + 1] == index[..i] + [index[i]];
      if p(index[i]) {
        r := r + [index[i]];
      }
    }
    assert index[..|index|] == index;
  }

  ghost predicate NewestFirst(s: seq<Entry>) {
    forall i, j :: 0 <= i < j < |s| ==> s[i].createdAt >= s[j].createdAt
  }

  lemma InsertedNewest(r: seq<Entry>, k: nat, x: Entry)
    requires NewestFirst(r) && k <= |r|
    requires forall j :: 0 <= j < k ==> r[j].createdAt > x.createdAt
    requires k < |r| ==> r[k].createdAt <= x.createdAt
    ensures NewestFirst(r[..k] + [x] + r[k..])
  {
    forall j | k <= j < |r| ensures r[j].createdAt <= x.createdAt {
      assert j > k ==> r[k].createdAt >= r[j].createdAt;
    }
  }

  /** Where x goes into r: behind every later entry, ahead of every entry that is not. */
  method InsertNewest(r: seq<Entry>, x: Entry) returns (r': seq<Entry>)
    requires NewestFirst(r)
    ensures NewestFirst(r') && multiset(r') == multiset(r) + multiset{x}
  {
    var k := 0;
    while k < |r| && r[k].createdAt > x.createdAt
      invariant 0 <= k <= |r| && forall j :: 0 <= j < k ==> r[j].createdAt > x.createdAt
    {
      k := k + 1;
    }
    InsertedNewest(r, k, x);
    assert r == r[..k] + r[k..];
    r' := r[..k] + [x] + r[k..];
  }

  /** sort.Slice by CreatedAt, latest first; how it orders entries of equal time is left open. */
  method SortNewestFirst(s: seq<Entry>) returns (r: seq<Entry>)
    ensures NewestFirst(r) && multiset(r) == multiset(s)
  {
    r := [];
    for i := 0 to |s|
      invariant NewestFirst(r) && multiset(r) == multiset(s[..i])
    {
      assert s[..i + 1] == s[..i] + [s[i]];
      r := InsertNewest(r, s[i]);
    }
    assert s[..|s|] == s;
  }

  lemma FirstIsNewest(index: seq<Entry>, p: Entry -> bool, matching: seq<Entry>, sorted: seq<Entry>)
    requires forall e :: e in matching <==> e in index && p(e)
    requires NewestFirst(sorted) && multiset(sorted) == multiset(matching) && matching != []
    ensures sorted != [] && NewestWith(index, p, sorted[0]) && !NoneWith(index, p)
  {
    assert |multiset(sorted)| == |multiset(matching)|;
    var e := sorted[0];
    assert e in multiset(matching) && e in matching;
    var i :| 0 <= i < |index| && index[i] == e;
    assert p(index[i]);
    forall j | 0 <= j < |index| && p(index[j]) ensures index[j].createdAt <= e.createdAt {
      assert index[j] in matching;
      assert index[j] in multiset(sorted);
      var k :| 0 <= k < |sorted| && sorted[k] == index[j];
    }
  }

  /** Sorting the matches and taking the first. */
  method Newest(index: seq<Entry>, p: Entry -> bool) returns (r: Option<Entry>)
    ensures r.None? <==> NoneWith(index, p)
    ensures r.Some? ==> NewestWith(index, p, r.value)
  {
    var matching := Filter(index, p);
    if |matching| == 0 {
      forall i | 0 <= i < |index| ensures !p(index[i]) {
        assert index[i] in index;
      }
      return None;
    }
    var sorted := SortNewestFirst(matching);
    FirstIsNewest(index, p, matching, sorted);
    return Some(sorted[0]);
  }

  method FindIn(index: seq<Entry>, keys: seq<string>, version: string) returns (r: Option<Entry>)
    ensures r.None? ==> forall k :: 0 <= k < |keys| ==> NoneWith(index, x => Candidate(x, keys[k], version))
    ensures r.Some? ==> exists k :: Answers(index, keys, version, k, r.value)
  {
    for k := 0 to |keys|
      invariant forall j :: 0 <= j < k ==> NoneWith(index, x => Candidate(x, keys[j], version))
    {
      r := Newest(index, x => Exact(x, keys[k], version));
      if r.Some? {
        assert Answers(index, keys, version, k, r.value);
        return;
      }
      r := Newest(index, x => Candidate(x, keys[k], version));
      if r.Some? {
        assert Answers(index, keys, version, k, r.value);
        return;
      }
    }
    return None;
  }

  // ----- the store -----

  class Store {
    var index: seq<Entry>
    var pending: map<string, Entry>
    var disk: seq<Entry>

    ghost function Snapshot(): State
      reads this
    {
      State(index, pending, disk)
    }

    constructor Open(disk: seq<Entry>)
      ensures Snapshot() == OpenOn(disk)
    {
      index, pending, this.disk := disk, map[], disk;
    }

    /** id is the random identifier drawn for this call. */
    method Reserve(id: string, key: string, version: string)
      modifies this
      ensures Snapshot() == ReserveOn(old(Snapshot()), id, key, version)
    {
      pending := pending[id := Entry(id, key, version, 0, 0)];
    }

    method Commit(id: string, size: int, now: int) returns (ok: bool)
      modifies this
      ensures ok == (id in old(pending)) && Snapshot() == CommitOn(old(Snapshot()), id, size, now)
    {
      if id !in pending {
        return false;
      }
      var entry := pending[id].(size := size, createdAt := now);
      pending := pending - {id};
      index := index + [entry];
      disk := index;
      return true;
    }

    method Find(keys: seq<string>, version: string) returns (r: Option<Entry>)
      ensures r.None? ==> forall k :: 0 <= k < |keys| ==> NoneWith(index, x => Candidate(x, keys[k], version))
      ensures r.Some? ==> exists k :: Answers(index, keys, version, k, r.value)
      ensures StrictlyLater(index) ==> r == ScanKeys(index, keys, version)
    {
      r := FindIn(index, keys, version);
      if r.None? {
        NoAnswerIsScan(index, keys, version);
      } else if StrictlyLater(index) {
        var k :| Answers(index, keys, version, k, r.value);
        AnswerIsScan(index, keys, version, k, r.value);
      }
    }

    method Get(id: string) returns (r: Option<Entry>)
      ensures r.None? <==> forall i :: 0 <= i < |index| ==> index[i].id != id
      ensures r.Some? ==> exists i :: 0 <= i < |index| && index[i] == r.value && r.value.id == id
    {
      for i := 0 to |index|
        invariant forall j :: 0 <= j < i ==> index[j].id != id
      {
        if index[i].id == id {
          return Some(index[i]);
        }
      }
      return None;
    }
  }

  // ----- Find refines a backward scan -----

  /** The last entry satisfying p, as a scan from the end finds it. */
  function LastWith(index: seq<Entry>, p: Entry -> bool): (r: Option<Entry>)
    ensures r.None? <==> NoneWith(index, p)
  {
    if index == [] then None
    else
      var last := |index| - 1;
      assert NoneWith(index, p) <==> !p(index[last]) && NoneWith(index[..last], p);
      if p(index[last]) then Some(index[last]) else LastWith(index[..last], p)
  }

  function ScanKeys(index: seq<Entry>, keys: seq<string>, version: string): Option<Entry> {
    if keys == [] then None
    else
      var exact := LastWith(index, x => Exact(x, keys[0], version));
      var prefixed := LastWith(index, x => Candidate(x, keys[0], version));
      if exact.Some? then exact else if prefixed.Some? then prefixed else ScanKeys(index, keys[1..], version)
  }

  /** Entries are committed at strictly later and later times. */
  ghost predicate StrictlyLater(index: seq<Entry>) {
    forall i, j :: 0 <= i < j < |index| ==> index[i].createdAt < index[j].createdAt
  }

  lemma {:induction false} NewestIsLast(index: seq<Entry>, p: Entry -> bool, e: Entry)
    requires StrictlyLater(index) && NewestWith(index, p, e)
    ensures LastWith(index, p) == Some(e)
    decreases |index|
  {
    var last := |index| - 1;
    var i :| 0 <= i < |index| && index[i] == e;
    if p(index[last]) {
      assert i == last;
    } else {
      assert i < last && index[..last][i] == e;
      NewestIsLast(index[..last], p, e);
    }
  }

  /** With a strictly increasing clock there is one answer, and it is the scan's. */
  lemma {:induction false} AnswerIsScan(index: seq<Entry>, keys: seq<string>, version: string, k: nat, e: Entry)
    requires StrictlyLater(index) && Answers(index, keys, version, k, e)
    ensures ScanKeys(index, keys, version) == Some(e)
    decreases |keys|
  {
    if k == 0 {
      if NoneWith(index, x => Exact(x, keys[0], version)) {
        NewestIsLast(index, x => Candidate(x, keys[0], version), e);
      } else {
        NewestIsLast(index, x => Exact(x, keys[0], version), e);
      }
    } else {
      assert NoneWith(index, x => Candidate(x, keys[0], version));
      ExactIsCandidate(index, keys[0], version);
      assert forall j :: 0 <= j < |keys| - 1 ==> keys[1..][j] == keys[j + 1];
      forall j | 0 <= j < k - 1 ensures NoneWith(index, x => Candidate(x, keys[1..][j], version)) {
        assert NoneWith(index, x => Candidate(x, keys[j + 1], version));
      }
      AnswerIsScan(index, keys[1..], version, k - 1, e);
    }
  }

  lemma {:induction false} NoAnswerIsScan(index: seq<Entry>, keys: seq<string>, version: string)
    requires forall k :: 0 <= k < |keys| ==> NoneWith(index, x => Candidate(x, keys[k], version))
    ensures ScanKeys(index, keys, version) == None
    decreases |keys|
  {
    if keys != [] {
      assert NoneWith(index, x => Candidate(x, keys[0], version));
      ExactIsCandidate(index, keys[0], version);
      forall k | 0 <= k < |keys| - 1 ensures NoneWith(index, x => Candidate(x, keys[1..][k], version)) {
        assert NoneWith(index, x => Candidate(x, keys[k + 1], version));
      }
      NoAnswerIsScan(index, keys[1..], version);
    }
  }

  lemma ExactIsCandidate(index: seq<Entry>, key: string, version: string)
    requires NoneWith(index, x => Candidate(x, key, version))
    ensures NoneWith(index, x => Exact(x, key, version))
  {
    forall i | 0 <= i < |index| ensures !Exact(index[i], key, version) {
      assert !Candidate(index[i], key, version);
      assert key[..|key|] == key;
    }
  }

  // ----- runs -----

  datatype Op =
    | Reserving(id: string, key: string, version: string)
    | Committing(id: string, size: int, now: int)
    | Reopening

  function Apply(s: State, op: Op): State {
    match op
    case Reserving(id, key, version) => ReserveOn(s, id, key, version)
    case Committing(id, size, now) => CommitOn(s, id, size, now)
    case Reopening => OpenOn(s.disk)
  }

  function Run(s: State, ops: seq<Op>): State
    decreases ops
  {
    if ops == [] then s else Run(Apply(s, ops[0]), ops[1..])
  }

  predicate IdUnused(s: State, id: string) {
    id !in s.pending && forall i :: 0 <= i < |s.index| ==> s.index[i].id != id
  }

  /** Every identifier drawn is new to the store. */
  predicate FreshIds(s: State, ops: seq<Op>)
    decreases ops
  {
    ops != [] ==> (ops[0].Reserving? ==> IdUnused(s, ops[0].id)) && FreshIds(Apply(s, ops[0]), ops[1..])
  }

  /** The clock is ahead of every committed entry whenever one is committed. */
  predicate ClockAhead(s: State, ops: seq<Op>)
    decreases ops
  {
    ops != [] ==>
      (ops[0].Committing? ==> forall i :: 0 <= i < |s.index| ==> s.index[i].createdAt < ops[0].now) &&
      ClockAhead(Apply(s, ops[0]), ops[1..])
  }

  ghost predicate Valid(s: State) {
    && s.disk == s.index
    && (forall i, j :: 0 <= i < j < |s.index| ==> s.index[i].id != s.index[j].id)
    && (forall i :: 0 <= i < |s.index| ==> s.index[i].id !in s.pending)
    && (forall id :: id in s.pending ==> s.pending[id].id == id)
  }

  /**
    Over every run with fresh identifiers, reopening included: the index only grows at its end,
    committed identifiers are pairwise different (each commits once) and none is pending, and the
    file agrees with the index.
   */
  lemma {:induction false} RunKeepsValid(s: State, ops: seq<Op>)
    requires Valid(s) && FreshIds(s, ops)
    ensures Valid(Run(s, ops)) && s.index <= Run(s, ops).index
    ensures StrictlyLater(s.index) && ClockAhead(s, ops) ==> StrictlyLater(Run(s, ops).index)
    decreases ops
  {
    if ops != [] {
      var s' := Apply(s, ops[0]);
      assert Valid(s') && s.index <= s'.index;
      RunKeepsValid(s', ops[1..]);
    }
  }

  /** A committed identifier is never accepted by a second commit, whatever happens in between. */
  lemma {:induction false} CommitsOnce(s: State, id: string, size: int, now: int, ops: seq<Op>, size': int, now': int)
    requires Valid(s) && id in s.pending && FreshIds(CommitOn(s, id, size, now), ops)
    ensures var s' := Run(CommitOn(s, id, size, now), ops); CommitOn(s', id, size', now') == s'
  {
    var s1 := CommitOn(s, id, size, now);
    assert Valid(s1);
    RunKeepsValid(s1, ops);
    var s' := Run(s1, ops);
    assert s1.index[|s.index|].id == id;
    assert s'.index[|s.index|] == s1.index[|s.index|];
  }

  /** Whatever Find answers, Get accepts and returns: the entry is the only one with its identifier. */
  lemma FoundIsGettable(s: State, ops: seq<Op>, keys: seq<string>, version: string, k: nat, e: Entry)
    requires Valid(s) && FreshIds(s, ops) && Answers(Run(s, ops).index, keys, version, k, e)
    ensures exists i :: 0 <= i < |Run(s, ops).index| && Run(s, ops).index[i].id == e.id
    ensures forall i :: 0 <= i < |Run(s, ops).index| && Run(s, ops).index[i].id == e.id ==> Run(s, ops).index[i] == e
  {
    RunKeepsValid(s, ops);
    var index := Run(s, ops).index;
    assert e in index;
    var i :| 0 <= i < |index| && index[i] == e;
  }
}
