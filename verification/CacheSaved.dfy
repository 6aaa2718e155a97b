/** From a reservation to an answer: what the cache store saves is what it finds, and what an answer is. */
module CacheSaved {
  import opened Outcomes
  import opened Text
  import opened CacheStore

  // ----- what an answer is -----

  /** The entry is for this version and its key begins with this text. */
  predicate Offers(e: Entry, key: string, version: string) {
    e.version == version && exists n: nat :: n <= |e.key| && e.key[..n] == key
  }

  lemma OffersIsCandidate(e: Entry, key: string, version: string)
    ensures Offers(e, key, version) <==> Candidate(e, key, version)
  {
    if Candidate(e, key, version) {
      assert e.key[..|key|] == key;
    }
    if Offers(e, key, version) {
      var n: nat :| n <= |e.key| && e.key[..n] == key;
      assert n == |key|;
    }
  }

  /** No entry with exactly this key and version is later than e. */
  predicate LatestExact(index: seq<Entry>, key: string, version: string, e: Entry) {
    forall x :: x in index && x.key == key && x.version == version ==> x.createdAt <= e.createdAt
  }

  /** No entry for the version whose key begins with this one is later than e. */
  predicate LatestOffered(index: seq<Entry>, key: string, version: string, e: Entry) {
    forall x :: x in index && Offers(x, key, version) ==> x.createdAt <= e.createdAt
  }

  /** Some entry for this version has exactly this key. */
  predicate HasExact(index: seq<Entry>, key: string, version: string) {
    exists x :: x in index && x.key == key && x.version == version
  }

  /**
    The answer to a lookup: k is the first key that the key of some entry for the version begins
    with; the answer is a latest entry whose key is exactly that one, or, if there is none, a latest
    one whose key begins with it.
   */
  ghost predicate Found(index: seq<Entry>, keys: seq<string>, version: string, k: nat, e: Entry) {
    && k < |keys| && e in index && Offers(e, keys[k], version)
    && (forall j, x :: 0 <= j < k && x in index ==> !Offers(x, keys[j], version))
    && if HasExact(index, keys[k], version)
       then e.key == keys[k] && LatestExact(index, keys[k], version, e)
       else LatestOffered(index, keys[k], version, e)
  }

  lemma NoneWithMeans(index: seq<Entry>, p: Entry -> bool)
    ensures NoneWith(index, p) <==> forall x :: x in index ==> !p(x)
  {
    if NoneWith(index, p) {
      forall x | x in index ensures !p(x) {
        var i :| 0 <= i < |index| && index[i] == x;
      }
    }
  }

  lemma NewestMeans(index: seq<Entry>, p: Entry -> bool, e: Entry)
    ensures NewestWith(index, p, e) <==>
              e in index && p(e) && forall x :: x in index && p(x) ==> x.createdAt <= e.createdAt
  {
    if NewestWith(index, p, e) {
      forall x | x in index && p(x) ensures x.createdAt <= e.createdAt {
        var i :| 0 <= i < |index| && index[i] == x;
      }
    }
  }

  lemma NoneOffered(index: seq<Entry>, key: string, version: string)
    ensures NoneWith(index, x => Candidate(x, key, version)) <==> forall x :: x in index ==> !Offers(x, key, version)
  {
    NoneWithMeans(index, x => Candidate(x, key, version));
    forall x ensures Offers(x, key, version) <==> Candidate(x, key, version) {
      OffersIsCandidate(x, key, version);
    }
  }

  lemma NoneExact(index: seq<Entry>, key: string, version: string)
    ensures NoneWith(index, x => Exact(x, key, version)) <==> !HasExact(index, key, version)
  {
    NoneWithMeans(index, x => Exact(x, key, version));
  }

  lemma NewestOf(index: seq<Entry>, key: string, version: string, e: Entry)
    ensures NewestWith(index, x => Exact(x, key, version), e) <==>
              e in index && e.key == key && e.version == version && LatestExact(index, key, version, e)
    ensures NewestWith(index, x => Candidate(x, key, version), e) <==>
              e in index && Offers(e, key, version) && LatestOffered(index, key, version, e)
  {
    forall x ensures Offers(x, key, version) <==> Candidate(x, key, version) {
      OffersIsCandidate(x, key, version);
    }
    NewestMeans(index, x => Exact(x, key, version), e);
    NewestMeans(index, x => Candidate(x, key, version), e);
  }

  lemma ExactOffers(e: Entry, key: string, version: string)
    requires e.key == key && e.version == version
    ensures Offers(e, key, version)
  {
    assert e.key[..|key|] == key;
  }

  /** What Find answers, said of keys, versions and times alone. */
  lemma AnswersMeans(index: seq<Entry>, keys: seq<string>, version: string, k: nat, e: Entry)
    ensures Answers(index, keys, version, k, e) <==> Found(index, keys, version, k, e)
  {
    if k < |keys| {
      forall j | 0 <= j < k
        ensures NoneWith(index, x => Candidate(x, keys[j], version)) <==>
                  forall x :: x in index ==> !Offers(x, keys[j], version)
      {
        NoneOffered(index, keys[j], version);
      }
      NoneExact(index, keys[k], version);
      NewestOf(index, keys[k], version, e);
      if e.key == keys[k] && e.version == version {
        ExactOffers(e, keys[k], version);
      }
    }
  }

  // ----- what is saved is found -----

  /** Nobody reopens the store or commits this identifier. */
  predicate LeavesPending(ops: seq<Op>, id: string) {
    forall i :: 0 <= i < |ops| ==> !ops[i].Reopening? && !(ops[i].Committing? && ops[i].id == id)
  }

  /** A reservation waits, unchanged, for its commit. */
  lemma {:induction false} StaysPending(s: State, ops: seq<Op>, id: string)
    requires Valid(s) && FreshIds(s, ops) && LeavesPending(ops, id) && id in s.pending
    ensures id in Run(s, ops).pending && Run(s, ops).pending[id] == s.pending[id]
    decreases ops
  {
    if ops != [] {
      var s' := Apply(s, ops[0]);
      RunKeepsValid(s, [ops[0]]);
      assert [ops[0]][1..] == [];
      assert Run(s, [ops[0]]) == Run(s', []) == s';
      StaysPending(s', ops[1..], id);
    }
  }

  /** The index after a reservation, whatever else goes on, and its commit. */
  function Saved(s: State, id: string, key: string, version: string, ops: seq<Op>, size: int, now: int): State {
    Apply(Run(Apply(s, Reserving(id, key, version)), ops), Committing(id, size, now))
  }

  /** Reserving, then anything but reopening, then committing appends the entry that was asked for. */
  lemma SavedEntry(s: State, id: string, key: string, version: string, ops: seq<Op>, size: int, now: int)
    requires Valid(s) && IdUnused(s, id) && LeavesPending(ops, id)
    requires FreshIds(Apply(s, Reserving(id, key, version)), ops)
    ensures var before := Run(Apply(s, Reserving(id, key, version)), ops);
            var after := Saved(s, id, key, version, ops, size, now);
            && after.index == before.index + [Entry(id, key, version, size, now)]
            && after.disk == after.index && id !in after.pending && Valid(after)
  {
    var s1 := Apply(s, Reserving(id, key, version));
    assert Valid(s1);
    StaysPending(s1, ops, id);
    RunKeepsValid(s1, ops);
    var s2 := Run(s1, ops);
    assert s2.pending[id] == Entry(id, key, version, 0, 0);
    assert Valid(Apply(s2, Committing(id, size, now)));
  }

  /** The last entry of an index is the one an exact lookup finds. */
  lemma LastIsScanned(index: seq<Entry>, e: Entry, rest: seq<string>)
    ensures ScanKeys(index + [e], [e.key] + rest, e.version) == Some(e)
  {
    var all := index + [e];
    assert ([e.key] + rest)[0] == e.key;
    assert LastWith(all, x => Exact(x, e.key, e.version)) == Some(e);
  }

  /**
    End to end: what was saved under a key and a version is what a lookup of them answers, with the
    identifier, the size and the time it was committed with.
   */
  lemma SavedIsFound(s: State, id: string, key: string, version: string, ops: seq<Op>, size: int, now: int,
                     rest: seq<string>)
    requires Valid(s) && IdUnused(s, id) && LeavesPending(ops, id)
    requires FreshIds(Apply(s, Reserving(id, key, version)), ops)
    requires forall e :: e in Run(Apply(s, Reserving(id, key, version)), ops).index ==> e.createdAt < now
    ensures var index := Saved(s, id, key, version, ops, size, now).index;
            var saved := Entry(id, key, version, size, now);
            && ScanKeys(index, [key] + rest, version) == Some(saved)
            && (forall k, e :: Found(index, [key] + rest, version, k, e) ==> e == saved)
  {
    var before := Run(Apply(s, Reserving(id, key, version)), ops).index;
    var saved := Entry(id, key, version, size, now);
    SavedEntry(s, id, key, version, ops, size, now);
    LastIsScanned(before, saved, rest);
    forall k, e | Found(before + [saved], [key] + rest, version, k, e) ensures e == saved {
      ExactOffers(saved, key, version);
      assert saved in before + [saved] && ([key] + rest)[0] == key;
      OnlyLatest(before, saved, e, k, [key] + rest);
    }
  }

  lemma OnlyLatest(before: seq<Entry>, saved: Entry, e: Entry, k: nat, keys: seq<string>)
    requires keys != [] && keys[0] == saved.key && Found(before + [saved], keys, saved.version, k, e)
    requires forall x :: x in before ==> x.createdAt < saved.createdAt
    ensures e == saved
  {
    var index := before + [saved];
    assert saved in index;
    ExactOffers(saved, keys[0], saved.version);
    assert k == 0;
    assert HasExact(index, keys[0], saved.version);
    assert e in before || e == saved;
  }

  lemma {:induction false} LastKept(index: seq<Entry>, later: seq<Entry>, p: Entry -> bool)
    requires forall x :: x in later ==> !p(x)
    ensures LastWith(index + later, p) == LastWith(index, p)
    decreases |later|
  {
    if later == [] {
      assert index + later == index;
    } else {
      var last := |later| - 1;
      assert (index + later)[|index + later| - 1] == later[last];
      assert (index + later)[..|index + later| - 1] == index + later[..last];
      LastKept(index, later[..last], p);
    }
  }

  /**
    It stays found over every later run, reopening included, until another entry of the same key and
    version is committed.
   */
  lemma SavedStaysFound(s: State, e: Entry, ops: seq<Op>)
    requires Valid(s) && s.index != [] && s.index[|s.index| - 1] == e && FreshIds(s, ops)
    requires var index := Run(s, ops).index;
             forall i :: |s.index| <= i < |index| ==> !(index[i].key == e.key && index[i].version == e.version)
    ensures ScanKeys(Run(s, ops).index, [e.key], e.version) == Some(e)
  {
    RunKeepsValid(s, ops);
    StillScanned(s.index, Run(s, ops).index, e);
  }

  lemma StillScanned(index: seq<Entry>, grown: seq<Entry>, e: Entry)
    requires index != [] && index[|index| - 1] == e && index <= grown
    requires forall i :: |index| <= i < |grown| ==> !(grown[i].key == e.key && grown[i].version == e.version)
    ensures ScanKeys(grown, [e.key], e.version) == Some(e)
  {
    var later := grown[|index|..];
    assert grown == index + later;
    assert [e.key][0] == e.key;
    LastKept(index, later, x => Exact(x, e.key, e.version));
  }

  /** A lookup of a mere beginning of the key finds it too, while nothing newer or more exact answers. */
  lemma SavedFoundByPrefix(s: State, e: Entry, n: nat)
    requires s.index != [] && s.index[|s.index| - 1] == e && n <= |e.key|
    requires !HasExact(s.index, e.key[..n], e.version)
    ensures ScanKeys(s.index, [e.key[..n]], e.version) == Some(e)
  {
    var key := e.key[..n];
    NoneExact(s.index, key, e.version);
    assert Candidate(e, key, e.version);
    assert LastWith(s.index, x => Candidate(x, key, e.version)) == Some(e);
    assert [key][0] == key;
  }
}
