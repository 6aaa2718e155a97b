/** Doublestar globbing and hashFiles (internal/engine/hashfiles.go). */
module Glob {
  import opened Outcomes
  import opened Text

  /** filepath.Match on one segment: a verdict, or an error for a malformed pattern. */
  type SegmentMatcher = (string, string) -> Result<bool, string>

  predicate SegmentOk(seg: SegmentMatcher, pat: string, name: string) {
    seg(pat, name) == Ok(true)
  }

  predicate MatchSegments(seg: SegmentMatcher, pat: seq<string>, path: seq<string>)
    decreases |pat| + |path|
  {
    if |pat| == 0 then |path| == 0
    else if pat[0] == "**" then
      MatchSegments(seg, pat[1..], path) || (|path| > 0 && MatchSegments(seg, pat, path[1..]))
    else
      |path| > 0 && SegmentOk(seg, pat[0], path[0]) && MatchSegments(seg, pat[1..], path[1..])
  }

  predicate GlobMatch(seg: SegmentMatcher, pattern: string, rel: string) {
    MatchSegments(seg, Split(pattern, '/'), Split(rel, '/'))
  }

  // ----- what a match is -----

  /** One pattern segment accounts for path[lo..hi]: any run for "**", one matching name otherwise. */
  predicate Takes(seg: SegmentMatcher, p: string, path: seq<string>, lo: nat, hi: nat) {
    lo <= hi <= |path| && (p != "**" ==> hi == lo + 1 && seg(p, path[lo]) == Ok(true))
  }

  /** cuts divides the path among the pattern's segments. */
  ghost predicate Divides(seg: SegmentMatcher, pat: seq<string>, path: seq<string>, cuts: seq<nat>) {
    && |cuts| == |pat| + 1
    && cuts[0] == 0
    && cuts[|pat|] == |path|
    && forall i :: 0 <= i < |pat| ==> Takes(seg, pat[i], path, cuts[i], cuts[i + 1])
  }

  lemma {:induction false} DivisionFound(seg: SegmentMatcher, pat: seq<string>, path: seq<string>)
    returns (cuts: seq<nat>)
    requires MatchSegments(seg, pat, path)
    ensures Divides(seg, pat, path, cuts)
    decreases |pat| + |path|
  {
    if |pat| == 0 {
      cuts := [0];
    } else if pat[0] == "**" && MatchSegments(seg, pat[1..], path) {
      var rest := DivisionFound(seg, pat[1..], path);
      cuts := [0] + rest;
      assert forall i :: 1 <= i < |pat| ==> pat[i] == pat[1..][i - 1];
    } else if pat[0] == "**" {
      var rest := DivisionFound(seg, pat, path[1..]);
      cuts := Shift(rest)[0 := 0];
      forall i | 0 <= i < |pat| ensures Takes(seg, pat[i], path, cuts[i], cuts[i + 1]) {
        assert Takes(seg, pat[i], path[1..], rest[i], rest[i + 1]);
      }
    } else {
      var rest := DivisionFound(seg, pat[1..], path[1..]);
      cuts := [0] + Shift(rest);
      forall i | 1 <= i < |pat| ensures Takes(seg, pat[i], path, cuts[i], cuts[i + 1]) {
        assert Takes(seg, pat[1..][i - 1], path[1..], rest[i - 1], rest[i]);
      }
    }
  }

  lemma {:induction false} DivisionMatches(seg: SegmentMatcher, pat: seq<string>, path: seq<string>, cuts: seq<nat>)
    requires Divides(seg, pat, path, cuts)
    ensures MatchSegments(seg, pat, path)
    decreases |pat| + |path|
  {
    if |pat| > 0 {
      assert Takes(seg, pat[0], path, cuts[0], cuts[1]);
      if cuts[1] == 0 {
        forall i | 0 <= i < |pat| - 1 ensures Takes(seg, pat[1..][i], path, cuts[1..][i], cuts[1..][i + 1]) {
          assert Takes(seg, pat[i + 1], path, cuts[i + 1], cuts[i + 2]);
        }
        DivisionMatches(seg, pat[1..], path, cuts[1..]);
      } else {
        CutsPastFirst(seg, pat, path, cuts);
        if pat[0] == "**" {
          var back := seq(|cuts|, i requires 0 <= i < |cuts| => if i == 0 then 0 else cuts[i] - 1);
          forall i | 0 <= i < |pat| ensures Takes(seg, pat[i], path[1..], back[i], back[i + 1]) {
            assert Takes(seg, pat[i], path, cuts[i], cuts[i + 1]);
          }
          DivisionMatches(seg, pat, path[1..], back);
        } else {
          var back := seq(|pat|, i requires 0 <= i < |pat| => cuts[i + 1] - 1);
          forall i | 0 <= i < |pat| - 1 ensures Takes(seg, pat[1..][i], path[1..], back[i], back[i + 1]) {
            assert Takes(seg, pat[i + 1], path, cuts[i + 1], cuts[i + 2]);
          }
          DivisionMatches(seg, pat[1..], path[1..], back);
        }
      }
    }
  }

  lemma {:induction false} CutsPastFirst(seg: SegmentMatcher, pat: seq<string>, path: seq<string>, cuts: seq<nat>)
    requires Divides(seg, pat, path, cuts) && |pat| > 0 && cuts[1] > 0
    ensures forall i :: 1 <= i < |cuts| ==> 0 < cuts[i] <= |path|
  {
    for k := 1 to |pat|
      invariant forall i :: 1 <= i <= k ==> 0 < cuts[i]
    {
      assert Takes(seg, pat[k], path, cuts[k], cuts[k + 1]);
    }
    forall i | 1 <= i < |cuts| ensures cuts[i] <= |path| {
      assert Takes(seg, pat[i - 1], path, cuts[i - 1], cuts[i]);
    }
  }

  /**
    The recursion finds a match exactly when the path can be divided, in order and without
    remainder, into one matching name for each ordinary segment and some run for each "**".
   */
  lemma MatchIff(seg: SegmentMatcher, pat: seq<string>, path: seq<string>)
    ensures MatchSegments(seg, pat, path) <==> exists cuts :: Divides(seg, pat, path, cuts)
  {
    if MatchSegments(seg, pat, path) {
      var cuts := DivisionFound(seg, pat, path);
    }
    forall cuts | Divides(seg, pat, path, cuts) ensures MatchSegments(seg, pat, path) {
      DivisionMatches(seg, pat, path, cuts);
    }
  }

  /** Patterns compose: a + b matches exactly the paths made of a match of a and a match of b. */
  lemma {:induction false} MatchComposes(seg: SegmentMatcher, a: seq<string>, b: seq<string>, path: seq<string>)
    ensures MatchSegments(seg, a + b, path) <==>
            exists k :: 0 <= k <= |path| && MatchSegments(seg, a, path[..k]) && MatchSegments(seg, b, path[k..])
  {
    if MatchSegments(seg, a + b, path) {
      var k := MatchDivides(seg, a, b, path);
    }
    forall k | 0 <= k <= |path| && MatchSegments(seg, a, path[..k]) && MatchSegments(seg, b, path[k..])
      ensures MatchSegments(seg, a + b, path)
    {
      MatchJoins(seg, a, b, path, k);
    }
  }

  lemma {:induction false} MatchDivides(seg: SegmentMatcher, a: seq<string>, b: seq<string>, path: seq<string>)
    returns (k: nat)
    requires MatchSegments(seg, a + b, path)
    ensures k <= |path| && MatchSegments(seg, a, path[..k]) && MatchSegments(seg, b, path[k..])
    decreases |a| + |path|
  {
    if a == [] {
      assert a + b == b;
      return 0;
    }
    assert (a + b)[1..] == a[1..] + b;
    if a[0] == "**" && MatchSegments(seg, a[1..] + b, path) {
      k := MatchDivides(seg, a[1..], b, path);
    } else {
      k := MatchDivides(seg, if a[0] == "**" then a else a[1..], b, path[1..]);
      assert path[1..][k..] == path[k + 1..] && path[1..][..k] == path[..k + 1][1..];
      k := k + 1;
    }
  }

  lemma {:induction false} MatchJoins(seg: SegmentMatcher, a: seq<string>, b: seq<string>, path: seq<string>, k: nat)
    requires k <= |path| && MatchSegments(seg, a, path[..k]) && MatchSegments(seg, b, path[k..])
    ensures MatchSegments(seg, a + b, path)
    decreases |a| + |path|
  {
    if a == [] {
      assert a + b == b;
      assert path[k..] == path;
    } else {
      assert (a + b)[1..] == a[1..] + b;
      if a[0] == "**" && MatchSegments(seg, a[1..], path[..k]) {
        MatchJoins(seg, a[1..], b, path, k);
      } else {
        assert path[..k][1..] == path[1..][..k - 1] && path[1..][k - 1..] == path[k..];
        MatchJoins(seg, if a[0] == "**" then a else a[1..], b, path[1..], k - 1);
      }
    }
  }

  // ----- consecutive "**" -----

  function Collapse(pat: seq<string>): seq<string> {
    if |pat| < 2 then pat
    else if pat[0] == "**" && pat[1] == "**" then Collapse(pat[1..])
    else [pat[0]] + Collapse(pat[1..])
  }

  lemma {:induction false} DoubledStar(seg: SegmentMatcher, pat: seq<string>, path: seq<string>)
    requires |pat| > 1 && pat[0] == "**" && pat[1] == "**"
    ensures MatchSegments(seg, pat, path) <==> MatchSegments(seg, pat[1..], path)
    decreases |path|
  {
    if |path| > 0 {
      DoubledStar(seg, pat, path[1..]);
    }
  }

  /** Writing "**" several times in a row means what writing it once does. */
  lemma {:induction false} CollapseKeepsMeaning(seg: SegmentMatcher, pat: seq<string>, path: seq<string>)
    ensures MatchSegments(seg, Collapse(pat), path) <==> MatchSegments(seg, pat, path)
    decreases |pat| + |path|
  {
    if |pat| >= 2 {
      if pat[0] == "**" && pat[1] == "**" {
        CollapseKeepsMeaning(seg, pat[1..], path);
        DoubledStar(seg, pat, path);
      } else {
        assert Collapse(pat)[1..] == Collapse(pat[1..]);
        if pat[0] == "**" {
          CollapseKeepsMeaning(seg, pat[1..], path);
        }
        if |path| > 0 {
          CollapseKeepsMeaning(seg, if pat[0] == "**" then pat else pat[1..], path[1..]);
        }
      }
    }
  }

  lemma {:induction false} CollapseHasNoDouble(pat: seq<string>)
    ensures forall i :: 0 <= i < |Collapse(pat)| - 1 ==> !(Collapse(pat)[i] == "**" && Collapse(pat)[i + 1] == "**")
    ensures pat != [] ==> Collapse(pat) != [] && Collapse(pat)[0] == pat[0]
  {
    if |pat| >= 2 {
      CollapseHasNoDouble(pat[1..]);
    }
  }

  // ----- hashFiles -----

  /** One call of the walk function: a directory, a file with its relative path, or a failure. */
  datatype Visit = Directory | File(rel: string) | Broken(error: string)

  predicate AnyMatch(seg: SegmentMatcher, patterns: seq<string>, rel: string) {
    exists p :: p in patterns && GlobMatch(seg, p, rel)
  }

  /** The files visited that some pattern matches. */
  ghost function Hits(seg: SegmentMatcher, patterns: seq<string>, walk: seq<Visit>): set<string> {
    set v | v in walk && v.File? && AnyMatch(seg, patterns, v.rel) :: v.rel
  }

  /** The path can be divided among the segments of the pattern. */
  ghost predicate Divisible(seg: SegmentMatcher, pattern: string, rel: string) {
    exists cuts :: Divides(seg, Split(pattern, '/'), Split(rel, '/'), cuts)
  }

  lemma GlobMatchIff(seg: SegmentMatcher, pattern: string, rel: string)
    ensures GlobMatch(seg, pattern, rel) <==> Divisible(seg, pattern, rel)
  {
    MatchIff(seg, Split(pattern, '/'), Split(rel, '/'));
  }

  /** The files that count: those visited whose path one of the patterns divides. */
  lemma HitsMeans(seg: SegmentMatcher, patterns: seq<string>, walk: seq<Visit>, rel: string)
    ensures rel in Hits(seg, patterns, walk) <==>
              File(rel) in walk && exists p :: p in patterns && Divisible(seg, p, rel)
  {
    forall p | p in patterns ensures GlobMatch(seg, p, rel) <==> Divisible(seg, p, rel) {
      GlobMatchIff(seg, p, rel);
    }
    HitsAre(seg, patterns, walk, rel);
  }

  lemma HitsAre(seg: SegmentMatcher, patterns: seq<string>, walk: seq<Visit>, rel: string)
    ensures rel in Hits(seg, patterns, walk) <==> File(rel) in walk && AnyMatch(seg, patterns, rel)
  {
    assert File(rel).rel == rel;
  }

  /** The contents of the files in turn, or the first that cannot be read. */
  function ReadAll(disk: map<string, seq<bv8>>, rels: seq<string>): Result<seq<bv8>, string> {
    if rels == [] then Ok([])
    else
      var last := |rels| - 1;
      match ReadAll(disk, rels[..last])
      case Err(e) => Err(e)
      case Ok(read) => if rels[last] in disk then Ok(read + disk[rels[last]]) else Err(rels[last])
  }

  /** hashFiles as a function of which files match. */
  ghost function HashOf(disk: map<string, seq<bv8>>, digest: seq<bv8> -> string, hits: set<string>)
    : Result<string, string>
  {
    if hits == {} then Ok("")
    else
      match ReadAll(disk, Sort(Listing(hits)))
      case Err(e) => Err(e)
      case Ok(read) => Ok(digest(read))
  }

  method MatchesAnyPattern(seg: SegmentMatcher, patterns: seq<string>, rel: string) returns (b: bool)
    ensures b == AnyMatch(seg, patterns, rel)
  {
    for i := 0 to |patterns|
      invariant !AnyMatch(seg, patterns[..i], rel)
    {
      assert patterns[..i + 1] == patterns[..i] + [patterns[i]];
      if GlobMatch(seg, patterns[i], rel) {
        return true;
      }
    }
    assert patterns[..|patterns|] == patterns;
    return false;
  }

  method CollectMatches(seg: SegmentMatcher, patterns: seq<string>, walk: seq<Visit>)
    returns (r: Result<set<string>, string>)
    ensures r.Ok? <==> forall i :: 0 <= i < |walk| ==> !walk[i].Broken?
    ensures r.Ok? ==> r.value == Hits(seg, patterns, walk)
    ensures r.Err? ==>
              exists i :: 0 <= i < |walk| && walk[i] == Broken(r.error) && forall j :: 0 <= j < i ==> !walk[j].Broken?
  {
    var matched: set<string> := {};
    for i := 0 to |walk|
      invariant forall j :: 0 <= j < i ==> !walk[j].Broken?
      invariant matched == Hits(seg, patterns, walk[..i])
    {
      assert walk[..i + 1] == walk[..i] + [walk[i]];
      match walk[i] {
        case Broken(e) => return Err(e);
        case Directory =>
        case File(rel) =>
          var hit := MatchesAnyPattern(seg, patterns, rel);
          if hit {
            matched := matched + {rel};
          }
      }
    }
    assert walk[..|walk|] == walk;
    return Ok(matched);
  }

  /** Ranging over the map that holds the matches: every key once, in no particular order. */
  method KeysOf(xs: set<string>) returns (s: seq<string>)
    ensures Lists(s, xs)
  {
    s := [];
    var left := xs;
    while left != {}
      invariant left <= xs && Lists(s, xs - left)
      decreases |left|
    {
      var x :| x in left;
      s, left := s + [x], left - {x};
    }
    assert xs - left == xs;
  }

  method ReadFiles(disk: map<string, seq<bv8>>, rels: seq<string>) returns (r: Result<seq<bv8>, string>)
    ensures r == ReadAll(disk, rels)
  {
    var read := [];
    for i := 0 to |rels|
      invariant ReadAll(disk, rels[..i]) == Ok(read)
    {
      assert rels[..i + 1][..i] == rels[..i];
      if rels[i] !in disk {
        ReadAllStops(disk, rels, i + 1);
        return Err(rels[i]);
      }
      read := read + disk[rels[i]];
    }
    assert rels[..|rels|] == rels;
    return Ok(read);
  }

  lemma {:induction false} ReadAllStops(disk: map<string, seq<bv8>>, rels: seq<string>, k: nat)
    requires k <= |rels| && ReadAll(disk, rels[..k]).Err?
    ensures ReadAll(disk, rels) == ReadAll(disk, rels[..k])
    decreases |rels|
  {
    if k == |rels| {
      assert rels[..k] == rels;
    } else {
      var last := |rels| - 1;
      assert rels[..last][..k] == rels[..k];
      ReadAllStops(disk, rels[..last], k);
    }
  }

  /** Where the contents of file i begin among those of the files in turn. */
  function Offset(disk: map<string, seq<bv8>>, rels: seq<string>, i: nat): nat
    requires i <= |rels| && forall k :: 0 <= k < i ==> rels[k] in disk
  {
    if i == 0 then 0 else Offset(disk, rels, i - 1) + |disk[rels[i - 1]]|
  }

  /** File i's contents stand in the bytes read, behind those of the files before it. */
  predicate StandsAt(disk: map<string, seq<bv8>>, rels: seq<string>, read: seq<bv8>, i: nat)
    requires i < |rels| && forall k :: 0 <= k < |rels| ==> rels[k] in disk
  {
    var start := Offset(disk, rels, i);
    start + |disk[rels[i]]| <= |read| && read[start..start + |disk[rels[i]]|] == disk[rels[i]]
  }

  /**
    Reading succeeds iff every file can be read; the bytes are then the files' contents in turn and
    nothing else. Otherwise the first file that cannot be read is the error.
   */
  lemma {:induction false} ReadAllMeans(disk: map<string, seq<bv8>>, rels: seq<string>)
    ensures ReadAll(disk, rels).Ok? <==> forall k :: 0 <= k < |rels| ==> rels[k] in disk
    ensures ReadAll(disk, rels).Ok? ==>
              && |ReadAll(disk, rels).value| == Offset(disk, rels, |rels|)
              && forall i: nat :: i < |rels| ==> StandsAt(disk, rels, ReadAll(disk, rels).value, i)
    ensures ReadAll(disk, rels).Err? ==>
              exists i :: 0 <= i < |rels| && rels[i] == ReadAll(disk, rels).error && rels[i] !in disk &&
                forall k :: 0 <= k < i ==> rels[k] in disk
    decreases |rels|
  {
    if rels != [] {
      var last := |rels| - 1;
      var init := rels[..last];
      ReadAllMeans(disk, init);
      assert forall k :: 0 <= k < last ==> init[k] == rels[k];
      if ReadAll(disk, rels).Ok? {
        ReadMore(disk, rels);
      }
    }
  }

  lemma {:induction false} SameOffset(disk: map<string, seq<bv8>>, a: seq<string>, b: seq<string>, i: nat)
    requires i <= |a| && i <= |b| && a[..i] == b[..i] && forall k :: 0 <= k < i ==> a[k] in disk
    ensures (forall k :: 0 <= k < i ==> b[k] in disk) && Offset(disk, a, i) == Offset(disk, b, i)
  {
    assert forall k :: 0 <= k < i ==> b[k] == b[..i][k] == a[k];
    if i > 0 {
      assert a[..i - 1] == a[..i][..i - 1] && b[..i - 1] == b[..i][..i - 1];
      SameOffset(disk, a, b, i - 1);
    }
  }

  lemma ReadMore(disk: map<string, seq<bv8>>, rels: seq<string>)
    requires rels != [] && (forall k :: 0 <= k < |rels| ==> rels[k] in disk) && ReadAll(disk, rels).Ok?
    requires var init := rels[..|rels| - 1];
             && ReadAll(disk, init).Ok? && |ReadAll(disk, init).value| == Offset(disk, init, |init|)
             && forall i: nat :: i < |init| ==> StandsAt(disk, init, ReadAll(disk, init).value, i)
    ensures |ReadAll(disk, rels).value| == Offset(disk, rels, |rels|)
    ensures forall i: nat :: i < |rels| ==> StandsAt(disk, rels, ReadAll(disk, rels).value, i)
  {
    var last := |rels| - 1;
    var init := rels[..last];
    var before, read := ReadAll(disk, init).value, ReadAll(disk, rels).value;
    SameOffset(disk, init, rels, last);
    forall i: nat | i < |rels| ensures StandsAt(disk, rels, read, i) {
      if i < last {
        assert StandsAt(disk, init, before, i);
        assert init[..i] == rels[..i];
        SameOffset(disk, init, rels, i);
        StandsStill(before, disk[rels[last]], Offset(disk, rels, i), disk[rels[i]]);
      }
    }
  }

  lemma StandsStill(before: seq<bv8>, more: seq<bv8>, start: nat, part: seq<bv8>)
    requires start + |part| <= |before| && before[start..start + |part|] == part
    ensures (before + more)[start..start + |part|] == part
  {
  }

  /** The hash: empty without matches, the digest of the matched files in sorted order, or an unreadable one. */
  lemma HashOfMeans(disk: map<string, seq<bv8>>, digest: seq<bv8> -> string, hits: set<string>)
    returns (rels: seq<string>)
    ensures Lists(rels, hits) && Sorted(rels)
    ensures hits == {} ==> HashOf(disk, digest, hits) == Ok("")
    ensures hits != {} ==>
              match ReadAll(disk, rels)
              case Ok(read) => HashOf(disk, digest, hits) == Ok(digest(read))
              case Err(e) => HashOf(disk, digest, hits) == Err(e)
  {
    SortLists(Listing(hits), hits);
    rels := Sort(Listing(hits));
  }

  /**
    The walk's failure if it fails, "" if nothing matches, otherwise the digest of the matched
    files' contents in sorted order.
   */
  method HashFiles(seg: SegmentMatcher, patterns: seq<string>, walk: seq<Visit>,
                   disk: map<string, seq<bv8>>, digest: seq<bv8> -> string)
    returns (r: Result<string, string>)
    ensures (forall i :: 0 <= i < |walk| ==> !walk[i].Broken?) ==> r == HashOf(disk, digest, Hits(seg, patterns, walk))
    ensures (exists i :: 0 <= i < |walk| && walk[i].Broken?) ==> r.Err? && Broken(r.error) in walk
  {
    var matched := CollectMatches(seg, patterns, walk);
    if matched.Err? {
      return Err(matched.error);
    }
    if matched.value == {} {
      return Ok("");
    }
    var relPaths := KeysOf(matched.value);
    SortForgetsOrder(relPaths, Listing(matched.value), matched.value);
    var read := ReadFiles(disk, Sort(relPaths));
    match read {
      case Err(e) => return Err(e);
      case Ok(bytes) => return Ok(digest(bytes));
    }
  }

  /** p and q read the same once runs of "**" are collapsed. */
  predicate SamePattern(p: string, q: string) {
    Collapse(Split(p, '/')) == Collapse(Split(q, '/'))
  }

  lemma PatternsInclude(seg: SegmentMatcher, patterns: seq<string>, patterns': seq<string>, rel: string)
    requires forall p :: p in patterns ==> exists q :: q in patterns' && SamePattern(p, q)
    ensures AnyMatch(seg, patterns, rel) ==> AnyMatch(seg, patterns', rel)
  {
    if AnyMatch(seg, patterns, rel) {
      var p :| p in patterns && GlobMatch(seg, p, rel);
      var q :| q in patterns' && SamePattern(p, q);
      CollapseKeepsMeaning(seg, Split(p, '/'), Split(rel, '/'));
      CollapseKeepsMeaning(seg, Split(q, '/'), Split(rel, '/'));
    }
  }

  /**
    The hash does not depend on the order or repetition of the patterns, nor on the order of the
    walk, nor on how often "**" is doubled in a pattern.
   */
  lemma HashIgnoresOrder(seg: SegmentMatcher, patterns: seq<string>, patterns': seq<string>,
                         walk: seq<Visit>, walk': seq<Visit>, disk: map<string, seq<bv8>>, digest: seq<bv8> -> string)
    requires forall v :: v in walk <==> v in walk'
    requires forall p :: p in patterns ==> exists q :: q in patterns' && SamePattern(p, q)
    requires forall q :: q in patterns' ==> exists p :: p in patterns && SamePattern(q, p)
    ensures HashOf(disk, digest, Hits(seg, patterns, walk)) == HashOf(disk, digest, Hits(seg, patterns', walk'))
  {
    forall rel ensures AnyMatch(seg, patterns, rel) <==> AnyMatch(seg, patterns', rel) {
      PatternsInclude(seg, patterns, patterns', rel);
      PatternsInclude(seg, patterns', patterns, rel);
    }
    assert Hits(seg, patterns, walk) == Hits(seg, patterns', walk');
  }
}
