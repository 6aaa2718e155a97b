/**
  What include and exclude come to, said of keys and values: which pairs each final combination holds,
  and which combinations exclude spares.
 */
module MatrixIncludes {
  import opened Text
  import opened MatrixSpec
  import opened Matrix

  // ----- one include entry -----

  /** The entry gives no shared key another value. */
  predicate Agrees(c: Combo, entry: Combo) {
    forall k :: k in c && k in entry ==> entry[k] == c[k]
  }

  /** d holds the entry's pairs and, at every other key, what c holds. */
  ghost predicate Joined(c: Combo, entry: Combo, d: Combo) {
    && (forall k :: k in d <==> k in c || k in entry)
    && (forall k :: k in entry ==> d[k] == entry[k])
    && (forall k :: k in c && k !in entry ==> d[k] == c[k])
  }

  predicate SomeAgrees(combos: seq<Combo>, entry: Combo) {
    exists i :: 0 <= i < |combos| && Agrees(combos[i], entry)
  }

  /**
    One include entry: its pairs arrive in every combination that agrees with it and in no other; it
    becomes a combination of its own, the last, iff none agrees.
   */
  lemma IncludeOneMeans(combos: seq<Combo>, entry: Combo)
    ensures var r := IncludeOne(combos, entry);
            && |r| == |combos| + (if SomeAgrees(combos, entry) then 0 else 1)
            && (forall i :: 0 <= i < |combos| && Agrees(combos[i], entry) ==> Joined(combos[i], entry, r[i]))
            && (forall i :: 0 <= i < |combos| && !Agrees(combos[i], entry) ==> r[i] == combos[i])
            && (!SomeAgrees(combos, entry) ==> r[|combos|] == entry)
  {
    forall i | 0 <= i < |combos| ensures Agrees(combos[i], entry) == SubsetMatch(combos[i], entry) {
    }
    assert SomeAgrees(combos, entry) == !MatchesNone(combos, entry);
  }

  // ----- all the include entries -----

  /** Every pair of the entry is in f. */
  predicate Arrived(entry: Combo, f: Combo) {
    Extends(entry, f)
  }

  /** Entry j contradicts neither c nor an earlier entry that arrived. */
  predicate Compatible(c: Combo, es: seq<Combo>, f: Combo, j: nat)
    requires j < |es|
  {
    Agrees(c, es[j]) && forall i :: 0 <= i < j && Arrived(es[i], f) ==> Agrees(es[i], es[j])
  }

  /** The key comes with c or with an entry that arrived. */
  predicate Sourced(c: Combo, es: seq<Combo>, f: Combo, k: string) {
    k in c || exists j :: 0 <= j < |es| && Arrived(es[j], f) && k in es[j]
  }

  /**
    f is c with, in their order, exactly the entries that contradict neither c nor an earlier arrived
    entry. That fixes f: its keys, and the value at each of them.
   */
  ghost predicate Collects(c: Combo, es: seq<Combo>, f: Combo) {
    && Extends(c, f)
    && (forall j: nat :: j < |es| ==> (Arrived(es[j], f) <==> Compatible(c, es, f, j)))
    && (forall k :: k in f ==> Sourced(c, es, f, k))
  }

  lemma {:induction false} IncludeCollects(combos: seq<Combo>, es: seq<Combo>, i: nat)
    requires i < |combos|
    ensures i < |Include(combos, es)| && Collects(combos[i], es, Include(combos, es)[i])
    decreases es
  {
    if es != [] {
      var next := IncludeOne(combos, es[0]);
      IncludeOneMeans(combos, es[0]);
      IncludeCollects(next, es[1..], i);
      var f := Include(combos, es)[i];
      CollectsMore(combos[i], next[i], es, f);
    }
  }

  /** The first entry's turn, seen from the end. */
  lemma CollectsMore(c: Combo, d: Combo, es: seq<Combo>, f: Combo)
    requires es != [] && Collects(d, es[1..], f)
    requires if Agrees(c, es[0]) then Joined(c, es[0], d) else d == c
    ensures Collects(c, es, f)
  {
    FirstArrives(c, d, es[0], f);
    forall j: nat | j < |es| ensures Arrived(es[j], f) <==> Compatible(c, es, f, j) {
      if j > 0 {
        assert es[1..][j - 1] == es[j];
        assert Arrived(es[1..][j - 1], f) <==> Compatible(d, es[1..], f, j - 1);
        CompatibleShifts(c, d, es, f, j);
      }
    }
    forall k | k in f ensures Sourced(c, es, f, k) {
      assert Sourced(d, es[1..], f, k);
      if k !in d {
        var j :| 0 <= j < |es[1..]| && Arrived(es[1..][j], f) && k in es[1..][j];
        assert es[j + 1] == es[1..][j];
      } else if k !in c {
        assert k in es[0] && Arrived(es[0], f);
      }
    }
  }

  lemma FirstArrives(c: Combo, d: Combo, entry: Combo, f: Combo)
    requires Extends(d, f) && if Agrees(c, entry) then Joined(c, entry, d) else d == c
    ensures Extends(c, f) && (Arrived(entry, f) <==> Agrees(c, entry))
  {
    if Agrees(c, entry) {
      forall k | k in c ensures k in f && f[k] == c[k] {
        assert k in d && d[k] == c[k];
      }
    } else {
      var k :| k in c && k in entry && entry[k] != c[k];
      assert f[k] == c[k];
    }
  }

  lemma CompatibleShifts(c: Combo, d: Combo, es: seq<Combo>, f: Combo, j: nat)
    requires 0 < j < |es| && (Arrived(es[0], f) <==> Agrees(c, es[0]))
    requires if Agrees(c, es[0]) then Joined(c, es[0], d) else d == c
    ensures Compatible(d, es[1..], f, j - 1) <==> Compatible(c, es, f, j)
  {
    var rest := es[1..];
    JoinedAgrees(c, es[0], d, es[j]);
    if Compatible(d, rest, f, j - 1) {
      forall i | 0 <= i < j && Arrived(es[i], f) ensures Agrees(es[i], es[j]) {
        if i > 0 {
          assert rest[i - 1] == es[i];
        }
      }
    }
    if Compatible(c, es, f, j) {
      forall i | 0 <= i < j - 1 && Arrived(rest[i], f) ensures Agrees(rest[i], rest[j - 1]) {
        assert rest[i] == es[i + 1];
      }
    }
  }

  /** To agree with what c and a first entry come to is to agree with c, and with that entry if it was joined. */
  lemma JoinedAgrees(c: Combo, entry: Combo, d: Combo, later: Combo)
    requires if Agrees(c, entry) then Joined(c, entry, d) else d == c
    ensures Agrees(d, later) <==> Agrees(c, later) && (Agrees(c, entry) ==> Agrees(entry, later))
  {
    if Agrees(c, entry) {
      forall k | k in c ensures k in d && d[k] == c[k] {}
    }
  }

  lemma {:induction false} IncludeConcat(combos: seq<Combo>, a: seq<Combo>, b: seq<Combo>)
    ensures Include(combos, a + b) == Include(Include(combos, a), b)
    decreases a
  {
    if a == [] {
      assert a + b == b;
    } else {
      assert (a + b)[0] == a[0] && (a + b)[1..] == a[1..] + b;
      IncludeConcat(IncludeOne(combos, a[0]), a[1..], b);
    }
  }

  /**
    An entry that agrees with no combination at its turn stands alone from there on, behind all the
    others, and collects the later entries as they do.
   */
  lemma StandaloneCollects(combos: seq<Combo>, es: seq<Combo>, j: nat)
    requires j < |es| && !SomeAgrees(Include(combos, es[..j]), es[j])
    ensures var p := |Include(combos, es[..j])|;
            p < |Include(combos, es)| && Collects(es[j], es[j + 1..], Include(combos, es)[p])
  {
    var before, rest := Include(combos, es[..j]), es[j + 1..];
    assert es == es[..j] + ([es[j]] + rest);
    IncludeConcat(combos, es[..j], [es[j]] + rest);
    assert ([es[j]] + rest)[1..] == rest;
    IncludeOneMeans(before, es[j]);
    IncludeCollects(IncludeOne(before, es[j]), rest, |before|);
  }

  /** Two combinations that collect the same entries from the same start are equal. */
  lemma CollectsUnique(c: Combo, es: seq<Combo>, f: Combo, g: Combo)
    requires Collects(c, es, f) && Collects(c, es, g)
    ensures f == g
  {
    SameArrivals(c, es, f, g, |es|);
    Inside(c, es, f, g);
    Inside(c, es, g, f);
    MutuallyExtend(f, g);
  }

  lemma MutuallyExtend(f: Combo, g: Combo)
    requires Extends(f, g) && Extends(g, f)
    ensures f == g
  {
  }

  lemma Inside(c: Combo, es: seq<Combo>, f: Combo, g: Combo)
    requires Collects(c, es, f) && Extends(c, g)
    requires forall j :: 0 <= j < |es| && Arrived(es[j], f) ==> Arrived(es[j], g)
    ensures Extends(f, g)
  {
    forall k | k in f ensures k in g && g[k] == f[k] {
      assert Sourced(c, es, f, k);
    }
  }

  lemma {:induction false} SameArrivals(c: Combo, es: seq<Combo>, f: Combo, g: Combo, n: nat)
    requires Collects(c, es, f) && Collects(c, es, g) && n <= |es|
    ensures forall j :: 0 <= j < n ==> (Arrived(es[j], f) <==> Arrived(es[j], g))
    decreases n
  {
    if n > 0 {
      SameArrivals(c, es, f, g, n - 1);
      assert Compatible(c, es, f, n - 1) <==> Compatible(c, es, g, n - 1);
    }
  }

  // ----- exclude -----

  /** The combination lacks one of the entry's pairs. */
  predicate Lacks(c: Combo, entry: Combo) {
    exists k :: k in entry && (k !in c || c[k] != entry[k])
  }

  /** Exclude spares, in order, exactly the combinations that lack a pair of every entry. */
  lemma ExcludeSpares(combos: seq<Combo>, excludes: seq<Combo>) returns (idx: seq<nat>)
    ensures Picks(combos, Exclude(combos, excludes), idx)
    ensures forall n: nat :: n < |combos| ==> (n in idx <==> forall e :: e in excludes ==> Lacks(combos[n], e))
  {
    idx := ExcludeIsFilter(combos, excludes);
    forall n: nat | n < |combos| ensures n in idx <==> forall e :: e in excludes ==> Lacks(combos[n], e) {
      ExcludedIff(combos[n], excludes);
    }
  }

  lemma ExcludedIff(c: Combo, excludes: seq<Combo>)
    ensures Excluded(c, excludes) <==> exists e :: e in excludes && !Lacks(c, e)
  {
    if Excluded(c, excludes) {
      var i :| 0 <= i < |excludes| && AllMatch(c, excludes[i]);
      assert !Lacks(c, excludes[i]);
    }
    if exists e :: e in excludes && !Lacks(c, e) {
      var e :| e in excludes && !Lacks(c, e);
      var i :| 0 <= i < |excludes| && excludes[i] == e;
      assert AllMatch(c, excludes[i]);
    }
  }

  // ----- a whole matrix -----

  /** A field holds one entry, a list of entries, or nothing. */
  lemma FieldDecoded(m: map<string, Value>, field: string)
    requires field in m ==> IsEntryList(m[field])
    ensures field !in m ==> EntriesAt(m, field) == []
    ensures field in m && m[field].Mapping? ==> EntriesAt(m, field) == [m[field].entries]
    ensures field in m && m[field].List? ==>
              && |EntriesAt(m, field)| == |m[field].items|
              && forall i :: 0 <= i < |m[field].items| ==> m[field].items[i] == Mapping(EntriesAt(m, field)[i])
  {
  }

  /** The axes are the lists at every key but include and exclude. */
  lemma AxesDecoded(m: map<string, Value>, k: string)
    requires Decodable(m)
    ensures k in AxesOf(m) <==> k in m && k != "include" && k != "exclude"
    ensures k in AxesOf(m) ==> m[k] == List(AxesOf(m)[k])
  {
  }

  /**
    Combination i of a well-formed matrix with axes, as far as exclude spared one: some choice of one
    element per axis, no exclude entry inside it, with the include entries it collects.
   */
  lemma ExpandedCombination(m: map<string, Value>, keys: seq<string>, i: nat) returns (c: Combo, n: nat)
    requires WellFormed(m) && Lists(keys, AxisNames(m)) && keys != [] && i < |Survivors(m, keys)|
    ensures n < |Product(keys, AxesOf(m))| && c == Product(keys, AxesOf(m))[n] == Survivors(m, keys)[i]
    ensures Positive(Lengths(keys, AxesOf(m)))
    ensures Chosen(c, keys, AxesOf(m), Digits(Lengths(keys, AxesOf(m)), n))
    ensures forall e :: e in EntriesAt(m, "exclude") ==> Lacks(c, e)
    ensures i < |Expand(m, keys)| && Collects(c, EntriesAt(m, "include"), Expand(m, keys)[i])
  {
    var product := Product(keys, AxesOf(m));
    var idx := ExcludeSpares(product, EntriesAt(m, "exclude"));
    n, c := idx[i], Survivors(m, keys)[i];
    assert n in idx;
    ProductClosedForm(keys, AxesOf(m), n);
    IncludeCollects(Survivors(m, keys), EntriesAt(m, "include"), i);
  }

  /** Without axes there is no product: the include entries stand alone or collect one another. */
  lemma ExpandedWithoutAxes(m: map<string, Value>, j: nat)
    requires WellFormed(m) && AxisNames(m) == {} && j < |EntriesAt(m, "include")|
    requires !SomeAgrees(Include([], EntriesAt(m, "include")[..j]), EntriesAt(m, "include")[j])
    ensures var es := EntriesAt(m, "include");
            var p := |Include([], es[..j])|;
            p < |Expand(m, [])| && Collects(es[j], es[j + 1..], Expand(m, [])[p])
  {
    StandaloneCollects([], EntriesAt(m, "include"), j);
  }
}
