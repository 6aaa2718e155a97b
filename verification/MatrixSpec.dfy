/**
  strategy.matrix expansion as functions of values: the cartesian product, exclude, and include
  (internal/engine/matrix.go).
 */
module MatrixSpec {
  import opened Text

  /** A YAML value; reflect.DeepEqual is equality of these. */
  datatype Value = Scalar(text: string) | List(items: seq<Value>) | Mapping(entries: map<string, Value>)

  type Combo = map<string, Value>
  type Axes = map<string, seq<Value>>

  // ----- the product -----

  function ExtendOne(c: Combo, k: string, axis: seq<Value>): (r: seq<Combo>)
    ensures |r| == |axis|
  {
    seq(|axis|, i requires 0 <= i < |axis| => c[k := axis[i]])
  }

  function Extend(combos: seq<Combo>, k: string, axis: seq<Value>): seq<Combo> {
    if combos == [] then [] else ExtendOne(combos[0], k, axis) + Extend(combos[1..], k, axis)
  }

  predicate KeysInAxes(keys: seq<string>, axes: Axes) {
    forall i :: 0 <= i < |keys| ==> keys[i] in axes
  }

  function Product(keys: seq<string>, axes: Axes): seq<Combo>
    requires KeysInAxes(keys, axes)
  {
    if keys == [] then [map[]]
    else
      var last := |keys| - 1;
      Extend(Product(keys[..last], axes), keys[last], axes[keys[last]])
  }

  /** The axis lengths, in the order of the keys. */
  function Lengths(keys: seq<string>, axes: Axes): (r: seq<nat>)
    requires KeysInAxes(keys, axes)
    ensures |r| == |keys| && forall j :: 0 <= j < |keys| ==> r[j] == |axes[keys[j]]|
  {
    seq(|keys|, j requires 0 <= j < |keys| => |axes[keys[j]]|)
  }

  /** The product of a sequence of lengths. */
  function Volume(lens: seq<nat>): nat {
    if lens == [] then 1 else Volume(lens[..|lens| - 1]) * lens[|lens| - 1]
  }

  predicate Positive(lens: seq<nat>) {
    forall j :: 0 <= j < |lens| ==> lens[j] > 0
  }

  /** One index per axis. */
  predicate Choice(lens: seq<nat>, choice: seq<nat>) {
    |choice| == |lens| && forall j :: 0 <= j < |lens| ==> choice[j] < lens[j]
  }

  /** The mixed-radix numeral of a choice, most significant axis first. */
  function Numeral(lens: seq<nat>, choice: seq<nat>): nat
    requires |choice| == |lens|
  {
    if lens == [] then 0
    else
      var last := |lens| - 1;
      Numeral(lens[..last], choice[..last]) * lens[last] + choice[last]
  }

  // ----- mixed-radix arithmetic -----

  lemma MulGap(n: int, m: int, L: int)
    requires n < m && 0 <= L
    ensures n * L + L <= m * L
  {
    var gap: nat := m - n - 1;
    assert m * L == (n + 1 + gap) * L == n * L + L + gap * L;
    NonNegative(gap, L);
  }

  lemma NonNegative(a: nat, b: int)
    requires 0 <= b
    ensures a * b >= 0
  {
  }

  lemma DivMod(n: nat, q: int, r: int, L: nat)
    requires n == q * L + r && 0 <= r < L
    ensures n / L == q && n % L == r
  {
    assert L * (n / L) + n % L == n;
    if n / L < q {
      MulGap(n / L, q, L);
    } else if q < n / L {
      MulGap(q, n / L, L);
    }
  }

  lemma DivDiv(n: nat, a: nat, b: nat)
    requires a > 0 && b > 0
    ensures a * b > 0 && n / (a * b) == (n / b) / a
  {
    var q := n / b;
    assert n == b * q + n % b;
    var p := q / a;
    assert q == a * p + q % a;
    assert n == p * (a * b) + ((q % a) * b + n % b) by {
      assert b * (a * p + q % a) == b * (a * p) + b * (q % a);
      assert b * (a * p) == p * (a * b);
    }
    MulGap(q % a, a, b);
    assert a * b > 0 by { MulGap(0, a, b); }
    assert (q % a) * b >= 0;
    DivMod(n, p, (q % a) * b + n % b, a * b);
  }

  lemma {:induction false} VolumePositive(lens: seq<nat>)
    ensures Volume(lens) > 0 <==> Positive(lens)
  {
    if lens != [] {
      var last := |lens| - 1;
      VolumePositive(lens[..last]);
      assert Positive(lens) <==> Positive(lens[..last]) && lens[last] > 0 by {
        assert lens == lens[..last] + [lens[last]];
      }
      if Volume(lens[..last]) > 0 && lens[last] > 0 {
        MulGap(0, Volume(lens[..last]), lens[last]);
      }
    }
  }

  /** The j-th digit of n: divide by the volume of the later axes, then take the remainder by the axis's own length. */
  function DigitAt(lens: seq<nat>, n: nat, j: nat): nat
    requires Positive(lens) && j < |lens|
  {
    VolumePositive(lens[j + 1..]);
    (n / Volume(lens[j + 1..])) % lens[j]
  }

  function Digits(lens: seq<nat>, n: nat): (r: seq<nat>)
    requires Positive(lens)
    ensures Choice(lens, r) && forall j :: 0 <= j < |lens| ==> r[j] == DigitAt(lens, n, j)
  {
    seq(|lens|, j requires 0 <= j < |lens| => DigitAt(lens, n, j))
  }

  lemma EarlierDigit(lens: seq<nat>, n: nat, j: nat)
    requires Positive(lens) && j < |lens| - 1
    ensures DigitAt(lens, n, j) == DigitAt(lens[..|lens| - 1], n / lens[|lens| - 1], j)
  {
    var init, L := lens[..|lens| - 1], lens[|lens| - 1];
    var tail := lens[j + 1..];
    assert tail[..|tail| - 1] == init[j + 1..] && tail[|tail| - 1] == L;
    VolumePositive(init[j + 1..]);
    assert Volume(tail) == Volume(init[j + 1..]) * L;
    DivDiv(n, Volume(init[j + 1..]), L);
  }

  lemma LastDigit(lens: seq<nat>, n: nat)
    requires Positive(lens) && lens != []
    ensures DigitAt(lens, n, |lens| - 1) == n % lens[|lens| - 1]
  {
    assert lens[|lens|..] == [];
  }

  lemma QuotientBelow(n: nat, a: nat, b: nat)
    requires b > 0 && n < a * b
    ensures n / b < a
  {
    var q := n / b;
    assert n == b * q + n % b;
    assert q > a ==> a * b + b <= q * b by {
      if q > a { MulGap(a, q, b); }
    }
  }

  /** The digits of n make up n. */
  lemma {:induction false} NumeralOfDigits(lens: seq<nat>, n: nat)
    requires Positive(lens) && n < Volume(lens)
    ensures Numeral(lens, Digits(lens, n)) == n
  {
    if lens != [] {
      var last := |lens| - 1;
      var init, L := lens[..last], lens[last];
      QuotientBelow(n, Volume(init), L);
      NumeralOfDigits(init, n / L);
      DigitsSplit(lens, n);
      NumeralLast(lens, Digits(lens, n));
      Recompose(n, L);
    }
  }

  lemma NumeralLast(lens: seq<nat>, choice: seq<nat>)
    requires lens != [] && |choice| == |lens|
    ensures var last := |lens| - 1;
            Numeral(lens, choice) == Numeral(lens[..last], choice[..last]) * lens[last] + choice[last]
  {
  }

  lemma Recompose(n: nat, L: nat)
    requires L > 0
    ensures n == (n / L) * L + n % L
  {
  }

  lemma DigitsSplit(lens: seq<nat>, n: nat)
    requires Positive(lens) && lens != []
    ensures var last := |lens| - 1;
            Digits(lens, n)[..last] == Digits(lens[..last], n / lens[last]) && Digits(lens, n)[last] == n % lens[last]
  {
    var last := |lens| - 1;
    LastDigit(lens, n);
    forall j: nat | j < last ensures Digits(lens, n)[j] == Digits(lens[..last], n / lens[last])[j] {
      EarlierDigit(lens, n, j);
    }
  }

  // ----- the closed form of the nested loops -----

  lemma {:induction false} ExtendSize(combos: seq<Combo>, k: string, axis: seq<Value>)
    ensures |Extend(combos, k, axis)| == |combos| * |axis|
  {
    if combos != [] {
      ExtendSize(combos[1..], k, axis);
      RowStep(|combos|, |axis|);
    }
  }

  lemma RowStep(m: nat, L: nat)
    requires m > 0
    ensures m * L == L + (m - 1) * L
  {
  }

  /** Row q of the extension, column r: combination q extended by axis element r. */
  lemma {:induction false} ExtendAt(combos: seq<Combo>, k: string, axis: seq<Value>, q: nat, r: nat)
    requires q < |combos| && r < |axis|
    ensures q * |axis| + r < |Extend(combos, k, axis)|
    ensures Extend(combos, k, axis)[q * |axis| + r] == combos[q][k := axis[r]]
    decreases q
  {
    if q > 0 {
      RowStep(q, |axis|);
      ExtendAt(combos[1..], k, axis, q - 1, r);
      NonNegative(q - 1, |axis|);
    }
  }

  lemma {:induction false} ProductSize(keys: seq<string>, axes: Axes)
    requires KeysInAxes(keys, axes)
    ensures |Product(keys, axes)| == Volume(Lengths(keys, axes))
  {
    if keys != [] {
      var last := |keys| - 1;
      ProductSize(keys[..last], axes);
      assert Lengths(keys, axes)[..last] == Lengths(keys[..last], axes);
      ExtendSize(Product(keys[..last], axes), keys[last], axes[keys[last]]);
    }
  }

  /** c has exactly the keys, and at each holds the chosen axis element. */
  predicate Chosen(c: Combo, keys: seq<string>, axes: Axes, choice: seq<nat>)
    requires KeysInAxes(keys, axes) && Choice(Lengths(keys, axes), choice)
  {
    && (forall k :: k in c ==> k in keys)
    && forall j :: 0 <= j < |keys| ==> keys[j] in c && c[keys[j]] == axes[keys[j]][choice[j]]
  }

  lemma ChosenLast(c: Combo, keys: seq<string>, axes: Axes, choice: seq<nat>)
    requires KeysInAxes(keys, axes) && keys != [] && Distinct(keys) && Choice(Lengths(keys, axes), choice)
    requires var last := |keys| - 1;
             Choice(Lengths(keys[..last], axes), choice[..last]) && Chosen(c, keys[..last], axes, choice[..last])
    ensures Chosen(c[keys[|keys| - 1] := axes[keys[|keys| - 1]][choice[|keys| - 1]]], keys, axes, choice)
  {
    var last := |keys| - 1;
    assert keys == keys[..last] + [keys[last]];
    var c' := c[keys[last] := axes[keys[last]][choice[last]]];
    forall j | 0 <= j < |keys| ensures keys[j] in c' && c'[keys[j]] == axes[keys[j]][choice[j]] {
      if j < last {
        assert keys[j] == keys[..last][j] && choice[j] == choice[..last][j];
        assert keys[j] != keys[last];
      }
    }
  }

  /** Every choice of one element per axis is a combination, and stands where its numeral says. */
  lemma {:induction false} EveryChoiceAppears(keys: seq<string>, axes: Axes, choice: seq<nat>)
    requires KeysInAxes(keys, axes) && Distinct(keys) && Choice(Lengths(keys, axes), choice)
    ensures Numeral(Lengths(keys, axes), choice) < |Product(keys, axes)|
    ensures Chosen(Product(keys, axes)[Numeral(Lengths(keys, axes), choice)], keys, axes, choice)
  {
    if keys != [] {
      var last := |keys| - 1;
      var init, axis := keys[..last], axes[keys[last]];
      assert Lengths(keys, axes)[..last] == Lengths(init, axes);
      EveryChoiceAppears(init, axes, choice[..last]);
      var q := Numeral(Lengths(init, axes), choice[..last]);
      ExtendAt(Product(init, axes), keys[last], axis, q, choice[last]);
      ChosenLast(Product(init, axes)[q], keys, axes, choice);
    }
  }

  /**
    Combination n has exactly the axis keys, and at the j-th sorted key holds the axis element at
    n's j-th mixed-radix digit; there are as many combinations as the axis lengths multiply to.
   */
  lemma ProductClosedForm(keys: seq<string>, axes: Axes, n: nat)
    requires KeysInAxes(keys, axes) && Distinct(keys) && n < |Product(keys, axes)|
    ensures |Product(keys, axes)| == Volume(Lengths(keys, axes)) && Positive(Lengths(keys, axes))
    ensures Chosen(Product(keys, axes)[n], keys, axes, Digits(Lengths(keys, axes), n))
  {
    ProductSize(keys, axes);
    VolumePositive(Lengths(keys, axes));
    NumeralOfDigits(Lengths(keys, axes), n);
    EveryChoiceAppears(keys, axes, Digits(Lengths(keys, axes), n));
  }

  // ----- exclude -----

  predicate AllMatch(c: Combo, entry: Combo) {
    forall k :: k in entry ==> k in c && c[k] == entry[k]
  }

  predicate Excluded(c: Combo, excludes: seq<Combo>) {
    exists i :: 0 <= i < |excludes| && AllMatch(c, excludes[i])
  }

  function KeepIf(combos: seq<Combo>, keep: Combo -> bool): seq<Combo> {
    if combos == [] then [] else (if keep(combos[0]) then [combos[0]] else []) + KeepIf(combos[1..], keep)
  }

  function Exclude(combos: seq<Combo>, excludes: seq<Combo>): seq<Combo> {
    KeepIf(combos, c => !Excluded(c, excludes))
  }

  ghost predicate Increasing(idx: seq<nat>) {
    forall i, j :: 0 <= i < j < |idx| ==> idx[i] < idx[j]
  }

  /** kept holds the combinations at the positions idx, in order. */
  ghost predicate Picks(combos: seq<Combo>, kept: seq<Combo>, idx: seq<nat>) {
    |idx| == |kept| && Increasing(idx) && forall i :: 0 <= i < |idx| ==> idx[i] < |combos| && kept[i] == combos[idx[i]]
  }

  ghost predicate ListsKept(combos: seq<Combo>, keep: Combo -> bool, idx: seq<nat>) {
    forall n: nat {:trigger keep(combos[n])} :: n < |combos| ==> (n in idx <==> keep(combos[n]))
  }

  lemma PicksLater(combos: seq<Combo>, kept: seq<Combo>, idx: seq<nat>)
    requires combos != [] && Picks(combos[1..], kept, idx)
    ensures Picks(combos, kept, Shift(idx)) && Picks(combos, [combos[0]] + kept, [0] + Shift(idx))
  {
  }

  lemma KeptLater(combos: seq<Combo>, keep: Combo -> bool, idx: seq<nat>)
    requires combos != [] && ListsKept(combos[1..], keep, idx)
    ensures ListsKept(combos, keep, if keep(combos[0]) then [0] + Shift(idx) else Shift(idx))
  {
    forall n: nat | 0 < n < |combos| ensures n in Shift(idx) <==> keep(combos[n]) {
      assert combos[n] == combos[1..][n - 1];
      ShiftMember(idx, n);
    }
  }

  lemma {:induction false} KeepIfPicks(combos: seq<Combo>, keep: Combo -> bool) returns (idx: seq<nat>)
    ensures Picks(combos, KeepIf(combos, keep), idx) && ListsKept(combos, keep, idx)
  {
    if combos == [] {
      idx := [];
    } else {
      var rest := KeepIfPicks(combos[1..], keep);
      idx := PicksStep(combos, keep, KeepIf(combos[1..], keep), rest);
    }
  }

  lemma PicksStep(combos: seq<Combo>, keep: Combo -> bool, kept: seq<Combo>, rest: seq<nat>) returns (idx: seq<nat>)
    requires combos != [] && Picks(combos[1..], kept, rest) && ListsKept(combos[1..], keep, rest)
    ensures Picks(combos, (if keep(combos[0]) then [combos[0]] else []) + kept, idx) && ListsKept(combos, keep, idx)
  {
    PicksLater(combos, kept, rest);
    KeptLater(combos, keep, rest);
    assert [] + kept == kept;
    idx := if keep(combos[0]) then [0] + Shift(rest) else Shift(rest);
  }

  lemma {:induction false} KeepIfNext(combos: seq<Combo>, keep: Combo -> bool, i: nat)
    requires i < |combos|
    ensures KeepIf(combos[..i + 1], keep) == KeepIf(combos[..i], keep) + if keep(combos[i]) then [combos[i]] else []
    decreases i
  {
    if i > 0 {
      KeepIfNext(combos[1..], keep, i - 1);
      assert combos[..i + 1][1..] == combos[1..][..i] && combos[..i][1..] == combos[1..][..i - 1];
    }
  }

  lemma {:induction false} KeepIfAll(combos: seq<Combo>, keep: Combo -> bool)
    requires forall i :: 0 <= i < |combos| ==> keep(combos[i])
    ensures KeepIf(combos, keep) == combos
  {
    if combos != [] {
      KeepIfAll(combos[1..], keep);
    }
  }

  /** Exclude keeps, in order, exactly the combinations matching no entry. */
  lemma ExcludeIsFilter(combos: seq<Combo>, excludes: seq<Combo>) returns (idx: seq<nat>)
    ensures Picks(combos, Exclude(combos, excludes), idx)
    ensures forall n: nat :: n < |combos| ==> (n in idx <==> !Excluded(combos[n], excludes))
  {
    var keep := (c: Combo) => !Excluded(c, excludes);
    idx := KeepIfPicks(combos, keep);
    forall n: nat | n < |combos| ensures n in idx <==> !Excluded(combos[n], excludes) {
      assert keep(combos[n]) <==> !Excluded(combos[n], excludes);
    }
  }

  lemma ShiftMember(idx: seq<nat>, n: nat)
    requires n > 0
    ensures n in Shift(idx) <==> n - 1 in idx
  {
    if n - 1 in idx {
      var i :| 0 <= i < |idx| && idx[i] == n - 1;
      assert Shift(idx)[i] == n;
    }
  }

  // ----- include -----

  predicate SubsetMatch(c: Combo, entry: Combo) {
    forall k :: k in entry && k in c ==> c[k] == entry[k]
  }

  predicate MatchesNone(combos: seq<Combo>, entry: Combo) {
    forall i :: 0 <= i < |combos| ==> !SubsetMatch(combos[i], entry)
  }

  function MergeInto(c: Combo, entry: Combo): Combo {
    if SubsetMatch(c, entry) then c + entry else c
  }

  function Merge(combos: seq<Combo>, entry: Combo): (r: seq<Combo>)
    ensures |r| == |combos|
  {
    seq(|combos|, i requires 0 <= i < |combos| => MergeInto(combos[i], entry))
  }

  function IncludeOne(combos: seq<Combo>, entry: Combo): seq<Combo> {
    Merge(combos, entry) + if MatchesNone(combos, entry) then [entry] else []
  }

  function Include(combos: seq<Combo>, includes: seq<Combo>): seq<Combo>
    decreases includes
  {
    if includes == [] then combos else Include(IncludeOne(combos, includes[0]), includes[1..])
  }

  predicate Extends(c: Combo, d: Combo) {
    forall k :: k in c ==> k in d && d[k] == c[k]
  }

  /** No merge overwrites a value: combination i only grows. */
  lemma {:induction false} IncludeNeverOverwrites(combos: seq<Combo>, includes: seq<Combo>, i: nat)
    requires i < |combos|
    ensures i < |Include(combos, includes)| && Extends(combos[i], Include(combos, includes)[i])
    decreases includes
  {
    if includes != [] {
      IncludeNeverOverwrites(IncludeOne(combos, includes[0]), includes[1..], i);
    }
  }

  /** How many entries match nothing when their turn comes. */
  function Standalone(combos: seq<Combo>, includes: seq<Combo>): nat
    decreases includes
  {
    if includes == [] then 0
    else
      (if MatchesNone(combos, includes[0]) then 1 else 0) +
      Standalone(IncludeOne(combos, includes[0]), includes[1..])
  }

  lemma {:induction false} IncludeCount(combos: seq<Combo>, includes: seq<Combo>)
    ensures |Include(combos, includes)| == |combos| + Standalone(combos, includes)
    decreases includes
  {
    if includes != [] {
      IncludeCount(IncludeOne(combos, includes[0]), includes[1..]);
    }
  }

  /** An include entry repeated at once changes nothing. */
  lemma RepeatedIncludeNoOp(combos: seq<Combo>, entry: Combo)
    ensures IncludeOne(IncludeOne(combos, entry), entry) == IncludeOne(combos, entry)
  {
    var once := IncludeOne(combos, entry);
    forall i | 0 <= i < |once| ensures MergeInto(once[i], entry) == once[i] {
      if SubsetMatch(once[i], entry) {
        assert once[i] + entry == once[i] by {
          if i < |combos| {
            assert once[i] == MergeInto(combos[i], entry);
          }
        }
      }
    }
    assert Merge(once, entry) == once;
    if MatchesNone(combos, entry) {
      assert once[|combos|] == entry && SubsetMatch(once[|combos|], entry);
    } else {
      var i :| 0 <= i < |combos| && SubsetMatch(combos[i], entry);
      assert once[i] == combos[i] + entry && SubsetMatch(once[i], entry);
    }
  }

  /** The two entries give some shared key different values. */
  predicate Conflict(a: Combo, b: Combo) {
    exists k :: k in a && k in b && a[k] != b[k]
  }

  ghost predicate PairwiseConflict(es: seq<Combo>) {
    forall i, j :: 0 <= i < j < |es| ==> Conflict(es[i], es[j])
  }

  lemma {:induction false} SeparateFrom(done: seq<Combo>, es: seq<Combo>)
    requires PairwiseConflict(done + es)
    ensures Include(done, es) == done + es
    decreases es
  {
    if es == [] {
      assert done + es == done;
    } else {
      forall i | 0 <= i < |done| ensures !SubsetMatch(done[i], es[0]) {
        assert (done + es)[i] == done[i] && (done + es)[|done|] == es[0];
        assert Conflict(done[i], es[0]);
      }
      assert IncludeOne(done, es[0]) == done + [es[0]];
      assert (done + [es[0]]) + es[1..] == done + es;
      SeparateFrom(done + [es[0]], es[1..]);
    }
  }

  lemma {:induction false} TogetherFrom(done: seq<Combo>, es: seq<Combo>)
    requires PairwiseConflict(done) && |Include(done, es)| == |done| + |es|
    ensures PairwiseConflict(done + es)
    decreases es
  {
    if es == [] {
      assert done + es == done;
    } else {
      IncludeCount(done, es);
      StandaloneBound(IncludeOne(done, es[0]), es[1..]);
      assert MatchesNone(done, es[0]);
      var done' := IncludeOne(done, es[0]);
      assert done' == done + [es[0]];
      forall i, j | 0 <= i < j < |done'| ensures Conflict(done'[i], done'[j]) {
        if j == |done| {
          var k :| k in es[0] && k in done[i] && done[i][k] != es[0][k];
        }
      }
      TogetherFrom(done', es[1..]);
      assert done' + es[1..] == done + es;
    }
  }

  lemma {:induction false} StandaloneBound(combos: seq<Combo>, includes: seq<Combo>)
    ensures Standalone(combos, includes) <= |includes|
    decreases includes
  {
    if includes != [] {
      StandaloneBound(IncludeOne(combos, includes[0]), includes[1..]);
    }
  }

  /**
    A matrix with include entries and no axes: every entry becomes a combination of its own iff the
    entries disagree pairwise on some shared key. The documented claim has no such condition.
   */
  lemma IncludeOnlySeparateIff(es: seq<Combo>)
    ensures Include([], es) == es <==> PairwiseConflict(es)
    ensures |Include([], es)| == |es| <==> PairwiseConflict(es)
  {
    assert [] + es == es;
    if PairwiseConflict(es) {
      SeparateFrom([], es);
    }
    if |Include([], es)| == |es| {
      TogetherFrom([], es);
    }
  }

  lemma IncludeOnlyCanMerge()
    ensures var a := map["a" := Scalar("1")];
            var b := map["b" := Scalar("2")];
            Include([], [a, b]) == [map["a" := Scalar("1"), "b" := Scalar("2")]]
  {
    var a: Combo := map["a" := Scalar("1")];
    var b: Combo := map["b" := Scalar("2")];
    assert IncludeOne([], a) == [a];
    assert SubsetMatch([a][0], b);
    assert IncludeOne([a], b) == [a + b];
    assert a + b == map["a" := Scalar("1"), "b" := Scalar("2")];
    assert [a, b][1..] == [b] && [b][1..] == [];
    assert Include([], [a, b]) == Include([a], [b]) == Include([a + b], []);
  }
}
