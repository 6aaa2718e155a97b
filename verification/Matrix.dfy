/**
  ExpandMatrix and its helpers as the source runs them: combinations are heap maps, and include
  entries are merged into them in place.
 */
module Matrix {
  import opened Outcomes
  import opened Text
  import opened MatrixSpec

  datatype MatrixError =
    | NotMappings(field: string)            // include or exclude is neither a mapping nor a list of mappings
    | AxisNotList(axis: string)
    | UnknownExcludeKey(key: string)

  // ----- decoding -----

  predicate IsEntryList(v: Value) {
    v.Mapping? || (v.List? && forall i :: 0 <= i < |v.items| ==> v.items[i].Mapping?)
  }

  function EntryList(v: Value): (r: seq<Combo>)
    requires IsEntryList(v)
  {
    if v.Mapping? then [v.entries] else seq(|v.items|, i requires 0 <= i < |v.items| => v.items[i].entries)
  }

  function EntriesAt(m: map<string, Value>, field: string): seq<Combo>
    requires field in m ==> IsEntryList(m[field])
  {
    if field in m then EntryList(m[field]) else []
  }

  function AxisNames(m: map<string, Value>): set<string> {
    m.Keys - {"include", "exclude"}
  }

  predicate Decodable(m: map<string, Value>) {
    && ("include" in m ==> IsEntryList(m["include"]))
    && ("exclude" in m ==> IsEntryList(m["exclude"]))
    && (forall k :: k in AxisNames(m) ==> m[k].List?)
  }

  predicate ExcludeKeysKnown(excludes: seq<Combo>, axes: Axes) {
    forall i, k :: 0 <= i < |excludes| && k in excludes[i] ==> k in axes
  }

  predicate WellFormed(m: map<string, Value>) {
    Decodable(m) && ExcludeKeysKnown(EntriesAt(m, "exclude"), AxesOf(m))
  }

  function AxesOf(m: map<string, Value>): Axes
    requires Decodable(m)
  {
    map k | k in AxisNames(m) :: m[k].items
  }

  predicate Blames(m: map<string, Value>, e: MatrixError) {
    match e
    case NotMappings(f) => (f == "include" || f == "exclude") && f in m && !IsEntryList(m[f])
    case AxisNotList(k) => k in AxisNames(m) && !m[k].List?
    case UnknownExcludeKey(k) =>
      && Decodable(m) && k !in AxesOf(m)
      && exists i :: 0 <= i < |EntriesAt(m, "exclude")| && k in EntriesAt(m, "exclude")[i]
  }

  /** The combinations of a well-formed matrix, in order, given its sorted axis names. */
  function Expand(m: map<string, Value>, keys: seq<string>): seq<Combo>
    requires WellFormed(m) && KeysInAxes(keys, AxesOf(m))
  {
    var product := if keys == [] then [] else Product(keys, AxesOf(m));
    Include(Exclude(product, EntriesAt(m, "exclude")), EntriesAt(m, "include"))
  }

  // ----- combinations in the heap -----

  class Combination {
    var vals: Combo

    constructor (vals: Combo)
      ensures this.vals == vals
    {
      this.vals := vals;
    }
  }

  ghost predicate Holds(cs: seq<Combination>, vals: seq<Combo>)
    reads cs
  {
    |cs| == |vals| && forall i :: 0 <= i < |cs| ==> cs[i].vals == vals[i]
  }

  method AllMatches(combo: Combination, entry: Combo) returns (r: bool)
    ensures r == AllMatch(combo.vals, entry)
  {
    var left := entry.Keys;
    while left != {}
      invariant left <= entry.Keys
      invariant forall k :: k in entry.Keys - left ==> k in combo.vals && combo.vals[k] == entry[k]
    {
      var k :| k in left;
      if k !in combo.vals || combo.vals[k] != entry[k] {
        return false;
      }
      left := left - {k};
    }
    return true;
  }

  method SubsetMatches(combo: Combination, entry: Combo) returns (r: bool)
    ensures r == SubsetMatch(combo.vals, entry)
  {
    var left := entry.Keys;
    while left != {}
      invariant left <= entry.Keys
      invariant forall k :: k in entry.Keys - left && k in combo.vals ==> combo.vals[k] == entry[k]
    {
      var k :| k in left;
      if k in combo.vals && combo.vals[k] != entry[k] {
        return false;
      }
      left := left - {k};
    }
    return true;
  }

  /** Every pair of the entry is written into the combination, in no particular order. */
  method WriteAll(combo: Combination, entry: Combo)
    modifies combo
    ensures combo.vals == old(combo.vals) + entry
  {
    var left := entry.Keys;
    ghost var was := combo.vals;
    while left != {}
      invariant left <= entry.Keys
      invariant combo.vals == was + (map k | k in entry.Keys - left :: entry[k])
    {
      var k :| k in left;
      combo.vals := combo.vals[k := entry[k]];
      left := left - {k};
    }
    assert (map k | k in entry.Keys - left :: entry[k]) == entry;
  }

  /** The innermost product loop: one combination, copied once per axis element. */
  method AppendRow(next: seq<Combination>, c: Combination, k: string, axis: seq<Value>, ghost made: seq<Combo>)
    returns (r: seq<Combination>)
    requires Holds(next, made) && Distinct(next)
    ensures Holds(r, made + ExtendOne(c.vals, k, axis)) && Distinct(r)
    ensures next <= r && forall i :: |next| <= i < |r| ==> fresh(r[i])
  {
    r := next;
    ghost var row := ExtendOne(c.vals, k, axis);
    for j := 0 to |axis|
      invariant Holds(r, made + row[..j]) && Distinct(r)
      invariant next <= r && forall i :: |next| <= i < |r| ==> fresh(r[i])
    {
      var nc := new Combination(c.vals[k := axis[j]]);
      r := r + [nc];
      assert row[..j + 1] == row[..j] + [row[j]];
    }
    assert row[..|axis|] == row;
  }

  lemma ExtendTurn(vals: seq<Combo>, k: string, axis: seq<Value>, i: nat, made: seq<Combo>)
    requires i < |vals|
    ensures made + Extend(vals[i..], k, axis) == made + ExtendOne(vals[i], k, axis) + Extend(vals[i + 1..], k, axis)
  {
    assert vals[i..][0] == vals[i] && vals[i..][1..] == vals[i + 1..];
  }

  /** One axis of the nested product loops. */
  method ExtendAll(combos: seq<Combination>, k: string, axis: seq<Value>, ghost vals: seq<Combo>)
    returns (next: seq<Combination>)
    requires Holds(combos, vals)
    ensures Holds(next, Extend(vals, k, axis)) && Distinct(next)
    ensures forall i :: 0 <= i < |next| ==> fresh(next[i])
  {
    next := [];
    ghost var made: seq<Combo> := [];
    var i := 0;
    while i < |combos|
      invariant 0 <= i <= |combos|
      invariant Extend(vals, k, axis) == made + Extend(vals[i..], k, axis)
      invariant Holds(next, made) && Distinct(next)
      invariant forall n :: 0 <= n < |next| ==> fresh(next[n])
    {
      ExtendTurn(vals, k, axis, i, made);
      next := AppendRow(next, combos[i], k, axis, made);
      made := made + ExtendOne(vals[i], k, axis);
      i := i + 1;
    }
    assert vals[i..] == [];
  }

  method CartesianProduct(keys: seq<string>, axes: Axes) returns (combos: seq<Combination>)
    requires KeysInAxes(keys, axes)
    ensures Holds(combos, if keys == [] then [] else Product(keys, axes)) && Distinct(combos)
    ensures forall i :: 0 <= i < |combos| ==> fresh(combos[i])
  {
    if keys == [] {
      return [];
    }
    var empty := new Combination(map[]);
    combos := [empty];
    assert keys[..0] == [];
    for i := 0 to |keys|
      invariant Holds(combos, Product(keys[..i], axes)) && Distinct(combos)
      invariant forall n :: 0 <= n < |combos| ==> fresh(combos[n])
    {
      assert keys[..i + 1][..i] == keys[..i];
      combos := ExtendAll(combos, keys[i], axes[keys[i]], Product(keys[..i], axes));
    }
    assert keys[..|keys|] == keys;
  }

  method MatchesAny(combo: Combination, excludes: seq<Combo>) returns (excluded: bool)
    ensures excluded == Excluded(combo.vals, excludes)
  {
    excluded := false;
    for j := 0 to |excludes|
      invariant forall n :: 0 <= n < j ==> !AllMatch(combo.vals, excludes[n])
    {
      excluded := AllMatches(combo, excludes[j]);
      if excluded {
        return;
      }
    }
  }

  method ApplyMatrixExclude(combos: seq<Combination>, excludes: seq<Combo>, ghost vals: seq<Combo>)
    returns (kept: seq<Combination>)
    requires Holds(combos, vals) && Distinct(combos)
    ensures Holds(kept, Exclude(vals, excludes)) && Distinct(kept)
    ensures forall c :: c in kept ==> c in combos
  {
    if |excludes| == 0 {
      ExcludeNothing(vals);
      return combos;
    }
    kept := [];
    ghost var done: seq<Combo> := [];
    var i := 0;
    while i < |combos|
      invariant 0 <= i <= |combos|
      invariant done == Exclude(vals[..i], excludes)
      invariant |kept| == |done| && forall n :: 0 <= n < |kept| ==> kept[n].vals == done[n]
      invariant Distinct(kept)
      invariant forall c :: c in kept ==> c in combos[..i]
    {
      var excluded := MatchesAny(combos[i], excludes);
      NextKept(kept, combos, i);
      ExcludeNext(vals, excludes, i);
      if !excluded {
        kept := kept + [combos[i]];
        done := done + [vals[i]];
      }
      i := i + 1;
    }
    assert vals[..i] == vals;
  }

  lemma ExcludeNext(vals: seq<Combo>, excludes: seq<Combo>, i: nat)
    requires i < |vals|
    ensures Exclude(vals[..i + 1], excludes) ==
            Exclude(vals[..i], excludes) + if Excluded(vals[i], excludes) then [] else [vals[i]]
  {
    KeepIfNext(vals, c => !Excluded(c, excludes), i);
  }

  lemma NextKept(kept: seq<Combination>, combos: seq<Combination>, i: nat)
    requires i < |combos| && Distinct(combos) && Distinct(kept) && forall c :: c in kept ==> c in combos[..i]
    ensures Distinct(kept + [combos[i]])
    ensures forall c :: c in kept + [combos[i]] ==> c in combos[..i + 1]
    ensures forall c :: c in kept ==> c in combos[..i + 1]
  {
    assert combos[..i + 1] == combos[..i] + [combos[i]];
    assert combos[i] !in combos[..i];
  }

  lemma ExcludeNothing(vals: seq<Combo>)
    ensures Exclude(vals, []) == vals
  {
    KeepIfAll(vals, c => !Excluded(c, []));
  }

  /** The inner loop of include: one entry against every combination, each written in place when it matches. */
  method MergeEntry(combos: seq<Combination>, entry: Combo, ghost vals: seq<Combo>) returns (matched: bool)
    requires Holds(combos, vals) && Distinct(combos)
    modifies combos
    ensures Holds(combos, Merge(vals, entry))
    ensures matched == !MatchesNone(vals, entry)
  {
    matched := false;
    for i := 0 to |combos|
      invariant forall n :: 0 <= n < i ==> combos[n].vals == MergeInto(vals[n], entry)
      invariant forall n :: i <= n < |combos| ==> combos[n].vals == vals[n]
      invariant matched == exists n :: 0 <= n < i && SubsetMatch(vals[n], entry)
    {
      var hit := SubsetMatches(combos[i], entry);
      if hit {
        matched := true;
        WriteAll(combos[i], entry);
      }
    }
  }

  /** One include entry: merged where it matches, a combination of its own where it matches nothing. */
  method IncludeEntry(combos: seq<Combination>, entry: Combo, ghost vals: seq<Combo>) returns (r: seq<Combination>)
    requires Holds(combos, vals) && Distinct(combos)
    modifies combos
    ensures Holds(r, IncludeOne(vals, entry)) && Distinct(r)
    ensures combos <= r && forall i :: |combos| <= i < |r| ==> fresh(r[i])
  {
    var matched := MergeEntry(combos, entry, vals);
    r := combos;
    if !matched {
      var nc := new Combination(entry);
      r := combos + [nc];
    }
  }

  method ApplyMatrixInclude(combos: seq<Combination>, includes: seq<Combo>, ghost vals: seq<Combo>)
    returns (r: seq<Combination>)
    requires Holds(combos, vals) && Distinct(combos)
    modifies combos
    ensures Holds(r, Include(vals, includes)) && Distinct(r)
    ensures combos <= r && forall i :: |combos| <= i < |r| ==> fresh(r[i])
  {
    r := combos;
    ghost var now := vals;
    var i := 0;
    while i < |includes|
      invariant 0 <= i <= |includes|
      invariant Include(vals, includes) == Include(now, includes[i..])
      invariant Holds(r, now) && Distinct(r)
      invariant combos <= r && forall n :: |combos| <= n < |r| ==> fresh(r[n])
    {
      assert includes[i..][0] == includes[i] && includes[i..][1..] == includes[i + 1..];
      r := IncludeEntry(r, includes[i], now);
      now := IncludeOne(now, includes[i]);
      i := i + 1;
    }
  }

  // ----- ExpandMatrix -----

  method SortedKeys(keys: set<string>) returns (sorted: seq<string>)
    ensures Lists(sorted, keys) && Sorted(sorted)
  {
    var listing: seq<string> := [];
    var left := keys;
    while left != {}
      invariant left <= keys && Lists(listing, keys - left)
    {
      var k :| k in left;
      listing, left := listing + [k], left - {k};
    }
    SortLists(listing, keys);
    sorted := Sort(listing);
  }

  /** Ranging over the matrix map and checking each field: whichever bad field is met first is blamed. */
  method CheckFields(m: map<string, Value>) returns (err: Option<MatrixError>)
    ensures err.None? <==> Decodable(m)
    ensures err.Some? ==> Blames(m, err.value)
  {
    var left := m.Keys;
    while left != {}
      invariant left <= m.Keys
      invariant forall k :: k in m.Keys - left && (k == "include" || k == "exclude") ==> IsEntryList(m[k])
      invariant forall k :: k in m.Keys - left && k in AxisNames(m) ==> m[k].List?
    {
      var k :| k in left;
      if k == "include" || k == "exclude" {
        if !IsEntryList(m[k]) {
          return Some(NotMappings(k));
        }
      } else if !m[k].List? {
        return Some(AxisNotList(k));
      }
      left := left - {k};
    }
    return None;
  }

  method CheckExcludeKeys(excludes: seq<Combo>, axes: Axes) returns (bad: Option<string>)
    ensures bad.None? <==> ExcludeKeysKnown(excludes, axes)
    ensures bad.Some? ==> bad.value !in axes && exists i :: 0 <= i < |excludes| && bad.value in excludes[i]
  {
    for i := 0 to |excludes|
      invariant forall n, k :: 0 <= n < i && k in excludes[n] ==> k in axes
    {
      var left := excludes[i].Keys;
      while left != {}
        invariant left <= excludes[i].Keys
        invariant forall k :: k in excludes[i].Keys - left ==> k in axes
      {
        var k :| k in left;
        if k !in axes {
          return Some(k);
        }
        left := left - {k};
      }
    }
    return None;
  }

  method ExpandMatrix(strategy: Option<map<string, Value>>) returns (r: Result<seq<Combination>, MatrixError>)
    ensures strategy.None? ==> r.Ok? && Holds(r.value, [map[]])
    ensures strategy.Some? ==> (r.Ok? <==> WellFormed(strategy.value))
    ensures strategy.Some? && r.Err? ==> Blames(strategy.value, r.error)
    ensures strategy.Some? && r.Ok? ==>
              exists keys :: Lists(keys, AxisNames(strategy.value)) && Sorted(keys) &&
                Holds(r.value, Expand(strategy.value, keys))
    ensures r.Ok? ==> Distinct(r.value) && forall i :: 0 <= i < |r.value| ==> fresh(r.value[i])
  {
    if strategy.None? {
      var c := new Combination(map[]);
      return Ok([c]);
    }
    var m := strategy.value;
    var err := CheckFields(m);
    if err.Some? {
      return Err(err.value);
    }
    var axes := AxesOf(m);
    var keys := SortedKeys(axes.Keys);
    var excludes := EntriesAt(m, "exclude");
    var bad := CheckExcludeKeys(excludes, axes);
    if bad.Some? {
      return Err(UnknownExcludeKey(bad.value));
    }
    var combos := CartesianProduct(keys, axes);
    ghost var product := if keys == [] then [] else Product(keys, axes);
    var kept := ApplyMatrixExclude(combos, excludes, product);
    assert forall c :: c in combos ==> fresh(c);
    forall i | 0 <= i < |kept| ensures fresh(kept[i]) {
      assert kept[i] in kept && kept[i] in combos;
    }
    var all := ApplyMatrixInclude(kept, EntriesAt(m, "include"), Exclude(product, excludes));
    assert Holds(all, Expand(m, keys));
    forall i | 0 <= i < |all| ensures fresh(all[i]) {
      if i < |kept| {
        assert all[i] == kept[i] && kept[i] in kept;
      }
    }
    return Ok(all);
  }

  /** What exclude spares of the product. */
  function Survivors(m: map<string, Value>, keys: seq<string>): seq<Combo>
    requires WellFormed(m) && KeysInAxes(keys, AxesOf(m))
  {
    Exclude(Product(keys, AxesOf(m)), EntriesAt(m, "exclude"))
  }

  /** Every surviving product combination keeps all its axis values through the includes. */
  lemma SurvivorsKeepAxes(m: map<string, Value>, keys: seq<string>, i: nat, k: string)
    requires WellFormed(m) && Lists(keys, AxisNames(m)) && keys != []
    requires i < |Survivors(m, keys)| && k in AxisNames(m)
    ensures i < |Expand(m, keys)| && k in Survivors(m, keys)[i] && k in Expand(m, keys)[i]
    ensures Expand(m, keys)[i][k] == Survivors(m, keys)[i][k] && Survivors(m, keys)[i][k] in AxesOf(m)[k]
  {
    var product := Product(keys, AxesOf(m));
    var idx := ExcludeIsFilter(product, EntriesAt(m, "exclude"));
    var j :| 0 <= j < |keys| && keys[j] == k;
    ProductClosedForm(keys, AxesOf(m), idx[i]);
    assert Survivors(m, keys)[i] == product[idx[i]];
    IncludeNeverOverwrites(Survivors(m, keys), EntriesAt(m, "include"), i);
  }

  /** The number of combinations: those exclude spares, and the includes that matched nothing at their turn. */
  lemma ExpandCount(m: map<string, Value>, keys: seq<string>)
    requires WellFormed(m) && Lists(keys, AxisNames(m)) && keys != []
    ensures |Product(keys, AxesOf(m))| == Volume(Lengths(keys, AxesOf(m)))
    ensures |Expand(m, keys)| == |Survivors(m, keys)| + Standalone(Survivors(m, keys), EntriesAt(m, "include"))
  {
    ProductSize(keys, AxesOf(m));
    IncludeCount(Survivors(m, keys), EntriesAt(m, "include"));
  }
}
