/** The string and sorting primitives of the Go standard library that the modelled code relies on. */
module Text {
  import opened Outcomes

  /** v stands in t at position i. */
  predicate OccursAt(t: string, v: string, i: nat) {
    i + |v| <= |t| && t[i..i + |v|] == v
  }

  ghost predicate Contains(t: string, v: string) {
    exists i: nat :: OccursAt(t, v, i)
  }

  /** strings.Index, restricted to positions at or after `from`. */
  function IndexFrom(t: string, v: string, from: nat): (r: Option<nat>)
    ensures r.Some? ==> from <= r.value <= r.value + |v| <= |t|
    decreases |t| - from
  {
    if |t| < from + |v| then None
    else if OccursAt(t, v, from) then Some(from)
    else if from < |t| then IndexFrom(t, v, from + 1)
    else None
  }

  function Index(t: string, v: string): (r: Option<nat>)
    ensures r.Some? ==> r.value + |v| <= |t|
  {
    IndexFrom(t, v, 0)
  }

  lemma {:induction false} IndexFromSpec(t: string, v: string, from: nat)
    ensures var r := IndexFrom(t, v, from);
            && (r.Some? ==> OccursAt(t, v, r.value))
            && (forall i: nat :: from <= i && (r.Some? ==> i < r.value) ==> !OccursAt(t, v, i))
    decreases |t| - from
  {
    if from + |v| <= |t| && !OccursAt(t, v, from) && from < |t| {
      IndexFromSpec(t, v, from + 1);
    }
  }

  /** The leftmost occurrence, if there is one. */
  lemma IndexSpec(t: string, v: string)
    ensures var r := Index(t, v);
            && (r.Some? ==> OccursAt(t, v, r.value))
            && (forall i: nat :: (r.Some? ==> i < r.value) ==> !OccursAt(t, v, i))
  {
    IndexFromSpec(t, v, 0);
  }

  /** What one more character in front does to the parts of a string. */
  function Consume(c: char, parts: seq<string>, sep: char): (r: seq<string>)
    requires |parts| > 0
    ensures |r| > 0
  {
    if c == sep then [""] + parts else [[c] + parts[0]] + parts[1..]
  }

  lemma ConsumeConcat(c: char, a: seq<string>, b: seq<string>, sep: char)
    requires |a| > 0
    ensures Consume(c, a + b, sep) == Consume(c, a, sep) + b
  {
    assert (a + b)[1..] == a[1..] + b;
  }

  /** strings.Split on a one-character separator. */
  function Split(s: string, sep: char): (parts: seq<string>)
    ensures |parts| > 0
  {
    if s == "" then [""] else Consume(s[0], Split(s[1..], sep), sep)
  }

  lemma {:induction false} SplitLacks(s: string, sep: char)
    ensures forall i :: 0 <= i < |Split(s, sep)| ==> sep !in Split(s, sep)[i]
  {
    if s != "" {
      SplitLacks(s[1..], sep);
    }
  }

  /** strings.Join on a one-character separator. */
  function Join(parts: seq<string>, sep: char): string {
    if |parts| == 0 then ""
    else if |parts| == 1 then parts[0]
    else parts[0] + [sep] + Join(parts[1..], sep)
  }

  lemma {:induction false} JoinSplit(s: string, sep: char)
    ensures Join(Split(s, sep), sep) == s
  {
    if s == "" {
    } else {
      JoinSplit(s[1..], sep);
      var rest := Split(s[1..], sep);
      if s[0] == sep {
        assert ([""] + rest)[1..] == rest;
      } else if |rest| > 1 {
        assert Split(s, sep)[1..] == rest[1..];
      }
    }
  }

  /** A separator splits the string into the parts before it and the parts after it. */
  lemma {:induction false} SplitConcat(a: string, b: string, sep: char)
    ensures Split(a + [sep] + b, sep) == Split(a, sep) + Split(b, sep)
    decreases a
  {
    var s := a + [sep] + b;
    if a == "" {
      assert s[1..] == b;
    } else {
      SplitConcat(a[1..], b, sep);
      assert s[1..] == a[1..] + [sep] + b;
      ConsumeConcat(a[0], Split(a[1..], sep), Split(b, sep), sep);
    }
  }

  /** Cutting off a first part that ends at the first separator. */
  lemma SplitFirst(a: string, rest: string, sep: char)
    requires sep !in a
    ensures Split(a + [sep] + rest, sep) == [a] + Split(rest, sep)
  {
    SplitConcat(a, rest, sep);
    SplitNone(a, sep);
  }

  lemma {:induction false} SplitNone(a: string, sep: char)
    requires sep !in a
    ensures Split(a, sep) == [a]
  {
    if a != "" {
      SplitNone(a[1..], sep);
      assert [a[0]] + a[1..] == a;
    }
  }

  lemma {:induction false} SplitJoin(parts: seq<string>, sep: char)
    requires |parts| > 0 && forall i :: 0 <= i < |parts| ==> sep !in parts[i]
    ensures Split(Join(parts, sep), sep) == parts
  {
    if |parts| == 1 {
      SplitNone(parts[0], sep);
    } else {
      SplitJoin(parts[1..], sep);
      SplitFirst(parts[0], Join(parts[1..], sep), sep);
    }
  }

  function DigitChar(d: nat): char
    requires d < 10
  {
    '0' + d as char
  }

  /** The decimal numeral of n, as %d prints it. */
  function Decimal(n: nat): (s: string)
    ensures |s| > 0 && forall i :: 0 <= i < |s| ==> '0' <= s[i] <= '9'
  {
    if n < 10 then [DigitChar(n)] else Decimal(n / 10) + [DigitChar(n % 10)]
  }

  predicate HasPrefix(s: string, p: string) {
    |p| <= |s| && s[..|p|] == p
  }

  /** The byte-wise lexicographic order of Go strings. */
  predicate LessEq(a: string, b: string) {
    a == "" || (b != "" && (a[0] < b[0] || (a[0] == b[0] && LessEq(a[1..], b[1..]))))
  }

  lemma LessEqTotal(a: string, b: string)
    ensures LessEq(a, b) || LessEq(b, a)
    ensures LessEq(a, b) && LessEq(b, a) ==> a == b
  {
    if a != "" && b != "" && a[0] == b[0] {
      LessEqTotal(a[1..], b[1..]);
      assert a == [a[0]] + a[1..] && b == [b[0]] + b[1..];
    }
  }

  lemma LessEqTransitive(a: string, b: string, c: string)
    requires LessEq(a, b) && LessEq(b, c)
    ensures LessEq(a, c)
  {
    if a != "" && a[0] == b[0] == c[0] {
      LessEqTransitive(a[1..], b[1..], c[1..]);
    }
  }

  /** The first position at which a and b differ, or the end of the shorter. */
  predicate FirstDifference(a: string, b: string, k: nat) {
    k <= |a| && k <= |b| && a[..k] == b[..k] && (k < |a| && k < |b| ==> a[k] != b[k])
  }

  /** a comes no later than b iff it ends, or has the smaller character, where they first differ. */
  lemma {:induction false} LessEqMeans(a: string, b: string) returns (k: nat)
    ensures FirstDifference(a, b, k)
    ensures k == |a| || k == |b| || a[k] != b[k]
    ensures LessEq(a, b) <==> k == |a| || (k < |b| && a[k] < b[k])
  {
    if a == "" || b == "" || a[0] != b[0] {
      k := 0;
    } else {
      var n := LessEqMeans(a[1..], b[1..]);
      k := n + 1;
      assert a[..k] == [a[0]] + a[1..][..n] && b[..k] == [b[0]] + b[1..][..n];
    }
  }

  ghost predicate Sorted(s: seq<string>) {
    forall i, j :: 0 <= i < j < |s| ==> LessEq(s[i], s[j])
  }

  function Insert(x: string, s: seq<string>): seq<string> {
    if s == [] then [x]
    else if LessEq(x, s[0]) then [x] + s
    else [s[0]] + Insert(x, s[1..])
  }

  lemma {:induction false} InsertMultiset(x: string, s: seq<string>)
    ensures multiset(Insert(x, s)) == multiset(s) + multiset{x}
  {
    if s != [] {
      assert s == [s[0]] + s[1..];
      if !LessEq(x, s[0]) {
        InsertMultiset(x, s[1..]);
      }
    }
  }

  lemma {:induction false} InsertElements(x: string, s: seq<string>, y: string)
    ensures y in Insert(x, s) <==> y == x || y in s
  {
    if s != [] && !LessEq(x, s[0]) {
      InsertElements(x, s[1..], y);
    }
  }

  lemma {:induction false} InsertSorted(x: string, s: seq<string>)
    requires Sorted(s)
    ensures Sorted(Insert(x, s))
  {
    if s != [] {
      if LessEq(x, s[0]) {
        InsertFront(x, s);
      } else {
        LessEqTotal(x, s[0]);
        InsertSorted(x, s[1..]);
        var rest := Insert(x, s[1..]);
        forall y | y in rest ensures LessEq(s[0], y) {
          InsertElements(x, s[1..], y);
        }
      }
    }
  }

  lemma InsertFront(x: string, s: seq<string>)
    requires s != [] && LessEq(x, s[0]) && Sorted(s)
    ensures Sorted([x] + s)
  {
    forall j | 0 <= j < |s| ensures LessEq(x, s[j]) {
      if j > 0 { LessEqTransitive(x, s[0], s[j]); }
    }
  }

  /** sort.Strings. Any sorting routine returns this sequence: see SortedUnique. */
  function Sort(s: seq<string>): (r: seq<string>)
    ensures Sorted(r) && multiset(r) == multiset(s)
  {
    if s == [] then [] else
      assert s == [s[0]] + s[1..];
      var rest := Sort(s[1..]);
      InsertSorted(s[0], rest);
      InsertMultiset(s[0], rest);
      Insert(s[0], rest)
  }

  lemma SameLeast(a: seq<string>, b: seq<string>)
    requires Sorted(a) && Sorted(b) && multiset(a) == multiset(b) && a != []
    ensures b != [] && a[0] == b[0]
  {
    assert a[0] in multiset(b);
    var i :| 0 <= i < |b| && b[i] == a[0];
    assert b[0] in multiset(a);
    var j :| 0 <= j < |a| && a[j] == b[0];
    LessEqTotal(a[0], b[0]);
  }

  lemma SameRest(a: seq<string>, b: seq<string>)
    requires a != [] && b != [] && a[0] == b[0] && multiset(a) == multiset(b)
    ensures multiset(a[1..]) == multiset(b[1..])
  {
    assert a == [a[0]] + a[1..] && b == [b[0]] + b[1..];
    assert multiset(a[1..]) == multiset(a) - multiset{a[0]};
    assert multiset(b[1..]) == multiset(b) - multiset{b[0]};
  }

  /** A multiset of strings has one sorted arrangement. */
  lemma {:induction false} SortedUnique(a: seq<string>, b: seq<string>)
    requires Sorted(a) && Sorted(b) && multiset(a) == multiset(b)
    ensures a == b
  {
    if a == [] {
      assert |multiset(b)| == 0;
    } else {
      SameLeast(a, b);
      SameRest(a, b);
      SortedUnique(a[1..], b[1..]);
      assert a == [a[0]] + a[1..] && b == [b[0]] + b[1..];
    }
  }

  /** Every position moved up by one. */
  function Shift(idx: seq<nat>): (r: seq<nat>)
    ensures |r| == |idx| && forall i :: 0 <= i < |idx| ==> r[i] == idx[i] + 1
  {
    seq(|idx|, i requires 0 <= i < |idx| => idx[i] + 1)
  }

  ghost predicate Distinct<T>(s: seq<T>) {
    forall i, j :: 0 <= i < j < |s| ==> s[i] != s[j]
  }

  /** s lists every element of xs once, in some order. */
  ghost predicate Lists<T(!new)>(s: seq<T>, xs: set<T>) {
    Distinct(s) && (forall x :: x in s ==> x in xs) && (forall x :: x in xs ==> x in s)
  }

  /** Some listing of a set; Sort forgets which. */
  ghost function Listing(xs: set<string>): (s: seq<string>)
    ensures Lists(s, xs)
  {
    if xs == {} then []
    else
      var x :| x in xs;
      [x] + Listing(xs - {x})
  }

  lemma {:induction false} ListsMultiset<T(!new)>(s: seq<T>, xs: set<T>)
    requires Lists(s, xs)
    ensures multiset(s) == multiset(xs)
  {
    if s == [] {
      assert xs == {};
    } else {
      var n := |s| - 1;
      assert s == s[..n] + [s[n]];
      forall x ensures x in s[..n] <==> x in xs - {s[n]} {
        if x in xs - {s[n]} { assert x in s; }
      }
      ListsMultiset(s[..n], xs - {s[n]});
      assert multiset(xs) == multiset(xs - {s[n]}) + multiset{s[n]};
    }
  }

  /** Sorting forgets the order in which a set's elements were listed. */
  lemma SortForgetsOrder(s: seq<string>, t: seq<string>, xs: set<string>)
    requires Lists(s, xs) && Lists(t, xs)
    ensures Sort(s) == Sort(t)
  {
    ListsMultiset(s, xs);
    ListsMultiset(t, xs);
    SortedUnique(Sort(s), Sort(t));
  }

  lemma MultiplicityOne<T>(r: seq<T>, xs: set<T>)
    requires multiset(r) == multiset(xs)
    ensures Distinct(r)
  {
    forall i, j | 0 <= i < j < |r| ensures r[i] != r[j] {
      assert r == r[..j] + r[j..];
      assert r[..j][i] in multiset(r[..j]) && r[j..][0] in multiset(r[j..]);
      assert multiset(r)[r[i]] == multiset(r[..j])[r[i]] + multiset(r[j..])[r[i]];
      assert multiset(xs)[r[i]] <= 1;
    }
  }

  /** Sorting keeps a duplicate-free listing of a set one. */
  lemma SortLists(s: seq<string>, xs: set<string>)
    requires Lists(s, xs)
    ensures Lists(Sort(s), xs)
  {
    ListsMultiset(s, xs);
    var r := Sort(s);
    MultiplicityOne(r, xs);
    assert multiset(r) == multiset(xs);
    forall x | x in r ensures x in xs {
      assert x in multiset(r);
    }
    forall x | x in xs ensures x in r {
      assert x in multiset(r);
    }
  }
}
