/** RedactMasks: sequential literal replacement of secrets by "***" (internal/commands/annotations.go). */
module Redaction {
  import opened Outcomes
  import opened Text

  const STARS := "***"

  /** strings.ReplaceAll(t, v, "***") for a non-empty v: leftmost, non-overlapping. */
  function ReplaceAll(t: string, v: string): string
    requires v != ""
    decreases |t|
  {
    var i := Index(t, v);
    if i.None? then t else t[..i.value] + STARS + ReplaceAll(t[i.value + |v|..], v)
  }

  function Redact(t: string, masks: seq<string>): string
    decreases masks
  {
    if masks == [] then t
    else Redact(if masks[0] == "" then t else ReplaceAll(t, masks[0]), masks[1..])
  }

  method RedactMasks(text: string, masks: seq<string>) returns (r: string)
    ensures r == Redact(text, masks)
    ensures forall v :: v in masks && v != "" && StarSafe(v) ==> !Contains(r, v)
  {
    r := text;
    var i := 0;
    while i < |masks|
      invariant 0 <= i <= |masks|
      invariant Redact(text, masks) == Redact(r, masks[i..])
    {
      assert masks[i..][0] == masks[i] && masks[i..][1..] == masks[i + 1..];
      if masks[i] != "" {
        r := ReplaceAll(r, masks[i]);
      }
      i := i + 1;
    }
    forall v | v in masks && v != "" && StarSafe(v) ensures !Contains(r, v) {
      RedactedIsGone(text, masks, v);
    }
  }

  // ----- which masks the replacement text can never bring back -----

  /** v neither starts nor ends with a star and has no "***" inside. Every star-free mask is safe. */
  ghost predicate StarSafe(v: string) {
    v != "" ==> v[0] != '*' && v[|v| - 1] != '*' && !Contains(v, STARS)
  }

  lemma StarFreeIsSafe(v: string)
    requires '*' !in v
    ensures StarSafe(v)
  {
    forall i: nat ensures !OccursAt(v, STARS, i) {
      assert i + 3 <= |v| ==> v[i..i + 3][0] == v[i];
    }
  }

  /** An occurrence of a safe mask in a + "***" + b lies inside a or inside b. */
  lemma NoStraddling(a: string, b: string, v: string, p: nat)
    requires v != "" && StarSafe(v) && OccursAt(a + STARS + b, v, p)
    ensures Contains(a, v) || Contains(b, v)
  {
    var t := a + STARS + b;
    var n := |a|;
    var q := p + |v|;
    assert forall k :: 0 <= k < |v| ==> v[k] == t[p..q][k] == t[p + k];
    assert forall k :: n <= k < n + 3 ==> t[k] == '*';
    assert t[p] == v[0] && t[q - 1] == v[|v| - 1];
    if q <= n {
      assert a[p..q] == t[p..q];
      assert OccursAt(a, v, p);
    } else if p >= n + 3 {
      assert b[p - n - 3..q - n - 3] == t[p..q];
      assert OccursAt(b, v, p - n - 3);
    } else if p < n && q > n + 3 {
      StarsAt(v, n - p);
    }
  }

  lemma StarsAt(v: string, i: nat)
    requires i + 3 <= |v| && v[i] == v[i + 1] == v[i + 2] == '*'
    ensures Contains(v, STARS)
  {
    assert v[i..i + 3] == STARS;
    assert OccursAt(v, STARS, i);
  }

  lemma PartsAvoid(t: string, v: string, lo: nat, hi: nat)
    requires lo <= hi <= |t| && !Contains(t, v)
    ensures !Contains(t[lo..hi], v)
  {
    forall i: nat ensures OccursAt(t[lo..hi], v, i) ==> OccursAt(t, v, lo + i) {
      if OccursAt(t[lo..hi], v, i) {
        PartOccurs(t, v, lo, hi, i);
      }
    }
  }

  lemma PartOccurs(t: string, v: string, lo: nat, hi: nat, i: nat)
    requires lo <= hi <= |t| && OccursAt(t[lo..hi], v, i)
    ensures OccursAt(t, v, lo + i)
  {
    var a, b := t[lo..hi][i..i + |v|], t[lo + i..lo + i + |v|];
    assert forall k :: 0 <= k < |v| ==> a[k] == b[k];
    assert a == b;
  }

  /** Replacing any mask never brings a safe one back. */
  lemma {:induction false} ReplaceKeepsOut(t: string, v: string, w: string)
    requires v != "" && w != "" && StarSafe(w) && !Contains(t, w)
    ensures !Contains(ReplaceAll(t, v), w)
    decreases |t|
  {
    var i := Index(t, v);
    if i.Some? {
      var a, b := t[..i.value], t[i.value + |v|..];
      PartsAvoid(t, w, 0, i.value);
      PartsAvoid(t, w, i.value + |v|, |t|);
      assert b == t[i.value + |v|..|t|];
      ReplaceKeepsOut(b, v, w);
      AvoidJoin(a, ReplaceAll(b, v), w);
    }
  }

  lemma AvoidJoin(a: string, b: string, w: string)
    requires w != "" && StarSafe(w) && !Contains(a, w) && !Contains(b, w)
    ensures !Contains(a + STARS + b, w)
  {
    forall p: nat ensures !OccursAt(a + STARS + b, w, p) {
      if OccursAt(a + STARS + b, w, p) {
        NoStraddling(a, b, w, p);
      }
    }
  }

  lemma {:induction false} ReplaceRemoves(t: string, v: string)
    requires v != "" && StarSafe(v)
    ensures !Contains(ReplaceAll(t, v), v)
    decreases |t|
  {
    var i := Index(t, v);
    IndexSpec(t, v);
    if i.Some? {
      ReplaceRemoves(t[i.value + |v|..], v);
      var a := t[..i.value];
      forall k: nat ensures !OccursAt(a, v, k) {
        if OccursAt(a, v, k) {
          assert OccursAt(t, v, k);
        }
      }
      AvoidJoin(a, ReplaceAll(t[i.value + |v|..], v), v);
    }
  }

  lemma {:induction false} RedactKeepsOut(t: string, masks: seq<string>, w: string)
    requires w != "" && StarSafe(w) && !Contains(t, w)
    ensures !Contains(Redact(t, masks), w)
    decreases masks
  {
    if masks != [] {
      if masks[0] != "" {
        ReplaceKeepsOut(t, masks[0], w);
      }
      RedactKeepsOut(if masks[0] == "" then t else ReplaceAll(t, masks[0]), masks[1..], w);
    }
  }

  /** A safe mask is gone from the redacted text, whatever the other masks, their order and their overlaps. */
  lemma {:induction false} RedactedIsGone(t: string, masks: seq<string>, v: string)
    requires v in masks && v != "" && StarSafe(v)
    ensures !Contains(Redact(t, masks), v)
    decreases masks
  {
    var t' := if masks[0] == "" then t else ReplaceAll(t, masks[0]);
    if masks[0] == v {
      ReplaceRemoves(t, v);
      RedactKeepsOut(t', masks[1..], v);
    } else {
      RedactedIsGone(t', masks[1..], v);
    }
  }

  lemma {:induction false} RedactIsIdentity(t: string, masks: seq<string>)
    requires forall v :: v in masks && v != "" ==> !Contains(t, v)
    ensures Redact(t, masks) == t
    decreases masks
  {
    if masks != [] {
      assert masks[0] in masks;
      IndexSpec(t, masks[0]);
      RedactIsIdentity(t, masks[1..]);
    }
  }

  /** Redaction is idempotent when every mask is safe. */
  lemma RedactIdempotent(t: string, masks: seq<string>)
    requires forall v :: v in masks ==> StarSafe(v)
    ensures Redact(Redact(t, masks), masks) == Redact(t, masks)
  {
    forall v | v in masks && v != "" ensures !Contains(Redact(t, masks), v) {
      RedactedIsGone(t, masks, v);
    }
    RedactIsIdentity(Redact(t, masks), masks);
  }

  // ----- what redaction leaves and in which order -----

  /** The parts with v between them. */
  function Interleave(parts: seq<string>, v: string): string
    requires parts != []
  {
    if |parts| == 1 then parts[0] else parts[0] + v + Interleave(parts[1..], v)
  }

  /** Each v between the parts is the first occurrence behind the one before it, and none follows the last. */
  ghost predicate CutLeftmost(parts: seq<string>, v: string)
    requires parts != []
  {
    && (forall k :: 0 <= k < |parts| - 1 ==> Index(parts[k] + v, v) == Some(|parts[k]|))
    && !Contains(parts[|parts| - 1], v)
  }

  /**
    Replacing keeps everything but the occurrences of v, taken leftmost first and without overlap,
    and puts "***" in the place of each.
   */
  lemma {:induction false} ReplaceAllMeans(t: string, v: string) returns (parts: seq<string>)
    requires v != ""
    ensures parts != [] && CutLeftmost(parts, v)
    ensures t == Interleave(parts, v) && ReplaceAll(t, v) == Interleave(parts, "***")
    decreases |t|
  {
    IndexSpec(t, v);
    var i := Index(t, v);
    if i.None? {
      parts := [t];
    } else {
      var rest := ReplaceAllMeans(t[i.value + |v|..], v);
      parts := [t[..i.value]] + rest;
      assert parts[1..] == rest;
      FirstCut(t, v, i.value);
      forall k | 0 <= k < |parts| - 1 ensures Index(parts[k] + v, v) == Some(|parts[k]|) {
        if k > 0 {
          assert parts[k] == rest[k - 1];
        }
      }
      assert t == t[..i.value] + v + t[i.value + |v|..];
    }
  }

  lemma NoEarlierInPart(t: string, v: string, hi: nat, i: nat)
    requires hi <= |t| && forall k: nat :: k < i ==> !OccursAt(t, v, k)
    ensures forall k: nat :: k < i ==> !OccursAt(t[..hi], v, k)
  {
    forall k: nat ensures OccursAt(t[..hi], v, k) ==> OccursAt(t, v, k) {
      if OccursAt(t[..hi], v, k) {
        assert t[0..hi] == t[..hi];
        PartOccurs(t, v, 0, hi, k);
      }
    }
  }

  lemma FirstCut(t: string, v: string, i: nat)
    requires v != "" && Index(t, v) == Some(i)
    ensures i + |v| <= |t| && t[i..i + |v|] == v && Index(t[..i] + v, v) == Some(i)
  {
    IndexSpec(t, v);
    var head := t[..i] + v;
    assert head == t[..i + |v|];
    assert head[i..i + |v|] == v;
    NoEarlierInPart(t, v, i + |v|, i);
    IndexIs(head, v, i);
  }

  /** Masks are applied one after another, in the order they were registered. */
  lemma {:induction false} RedactInOrder(t: string, a: seq<string>, b: seq<string>)
    ensures Redact(t, a + b) == Redact(Redact(t, a), b)
    decreases a
  {
    if a == [] {
      assert a + b == b;
    } else {
      assert (a + b)[0] == a[0] && (a + b)[1..] == a[1..] + b;
      RedactInOrder(if a[0] == "" then t else ReplaceAll(t, a[0]), a[1..], b);
    }
  }

  /** One mask: the empty one changes nothing. */
  lemma RedactByOne(t: string, v: string)
    ensures Redact(t, [v]) == if v == "" then t else ReplaceAll(t, v)
  {
    assert [v][1..] == [];
  }

  // ----- the condition is exact -----

  /** If the first occurrence of v in t is at i, redacting v alone rewrites t there. */
  lemma FirstReplacement(t: string, v: string, i: nat)
    requires v != "" && OccursAt(t, v, i) && forall k: nat :: k < i ==> !OccursAt(t, v, k)
    ensures Redact(t, [v]) == t[..i] + STARS + ReplaceAll(t[i + |v|..], v)
  {
    RedactOne(t, v);
    IndexIs(t, v, i);
  }

  lemma RedactOne(t: string, v: string)
    requires v != ""
    ensures Redact(t, [v]) == ReplaceAll(t, v)
  {
    assert [v][1..] == [];
    assert Redact(t, [v]) == Redact(ReplaceAll(t, v), []);
  }

  lemma IndexIs(t: string, v: string, i: nat)
    requires OccursAt(t, v, i) && forall k: nat :: k < i ==> !OccursAt(t, v, k)
    ensures Index(t, v) == Some(i)
  {
    IndexSpec(t, v);
  }

  lemma ShorterUntouched(t: string, v: string)
    requires v != "" && |t| < |v|
    ensures ReplaceAll(t, v) == t
  {
  }

  lemma LeadingStarReturns(v: string)
    requires v != "" && v[0] == '*'
    ensures Contains(Redact(v + v[1..], [v]), v)
  {
    var t := v + v[1..];
    assert t[0..|v|] == v && t[|v|..] == v[1..];
    FirstReplacement(t, v, 0);
    ShorterUntouched(v[1..], v);
    assert t[..0] + STARS == STARS;
    LeadingStarRebuilt(v);
  }

  lemma LeadingStarRebuilt(v: string)
    requires v != "" && v[0] == '*'
    ensures Contains(STARS + v[1..], v)
  {
    var r := STARS + v[1..];
    assert r[2..2 + |v|] == v;
    assert OccursAt(r, v, 2);
  }

  lemma NoEarlierTrailing(v: string, k: nat)
    requires v != "" && v[0] != '*' && v[|v| - 1] == '*' && k < |v| - 1
    ensures !OccursAt(v[..|v| - 1] + v, v, k)
  {
    var n := |v| - 1;
    var t := v[..n] + v;
    var w := t[k..k + |v|];
    assert w[n] == t[k + n] == v[k];
    assert w[0] == t[k] == v[k];
  }

  lemma TrailingStarReturns(v: string)
    requires v != "" && v[0] != '*' && v[|v| - 1] == '*'
    ensures Contains(Redact(v[..|v| - 1] + v, [v]), v)
  {
    var n := |v| - 1;
    var t := v[..n] + v;
    assert t[n..n + |v|] == v;
    forall k: nat | k < n ensures !OccursAt(t, v, k) {
      NoEarlierTrailing(v, k);
    }
    FirstReplacement(t, v, n);
    assert t[..n] == v[..n];
    StarCompletes(v, ReplaceAll(t[n + |v|..], v));
  }

  lemma StarCompletes(v: string, rest: string)
    requires v != "" && v[|v| - 1] == '*'
    ensures Contains(v[..|v| - 1] + STARS + rest, v)
  {
    var n := |v| - 1;
    var r := v[..n] + STARS + rest;
    assert r[n] == v[n] && forall k :: 0 <= k < n ==> r[k] == v[k];
    assert r[0..|v|] == v;
    assert OccursAt(r, v, 0);
  }

  lemma NoEarlierInner(v: string, m: nat, k: nat)
    requires k < m && OccursAt(v, STARS, m) && !OccursAt(v, STARS, k)
    ensures !OccursAt(v[..m] + v + v[m + 3..], v, k)
  {
    var t := v[..m] + v + v[m + 3..];
    assert forall j :: 0 <= j < |v| ==> t[m + j] == v[j];
    var w := t[k..k + |v|];
    assert w[m] == t[k + m] == v[k] && w[m + 1] == t[k + m + 1] == v[k + 1] && w[m + 2] == t[k + m + 2] == v[k + 2];
    assert v[m] == v[m..m + 3][0] && v[m + 1] == v[m..m + 3][1] && v[m + 2] == v[m..m + 3][2];
    assert v[k..k + 3] == [v[k], v[k + 1], v[k + 2]];
  }

  lemma InnerStarsReturn(v: string, m: nat)
    requires OccursAt(v, STARS, m) && forall k: nat :: k < m ==> !OccursAt(v, STARS, k)
    ensures Contains(Redact(v[..m] + v + v[m + 3..], [v]), v)
  {
    var a, b := v[..m], v[m + 3..];
    var t := a + v + b;
    assert t[m..m + |v|] == v;
    forall k: nat | k < m ensures !OccursAt(t, v, k) {
      NoEarlierInner(v, m, k);
    }
    FirstReplacement(t, v, m);
    assert t[m + |v|..] == b && t[..m] == a;
    ShorterUntouched(b, v);
    InnerStarsRebuilt(v, m);
  }

  lemma InnerStarsRebuilt(v: string, m: nat)
    requires OccursAt(v, STARS, m)
    ensures Contains(v[..m] + STARS + v[m + 3..], v)
  {
    var r := v[..m] + STARS + v[m + 3..];
    assert r == v[..m] + v[m..m + 3] + v[m + 3..] == v;
    assert r[0..|v|] == v;
    assert OccursAt(r, v, 0);
  }

  /** Redacting the mask v alone leaves v in the text. */
  ghost predicate Survives(t: string, v: string) {
    Contains(Redact(t, [v]), v)
  }

  lemma UnsafeSurvives(v: string) returns (t: string)
    requires v != "" && !StarSafe(v)
    ensures Survives(t, v)
  {
    if v[0] == '*' {
      LeadingStarReturns(v);
      t := v + v[1..];
    } else if v[|v| - 1] == '*' {
      TrailingStarReturns(v);
      t := v[..|v| - 1] + v;
    } else {
      IndexSpec(v, STARS);
      var m := Index(v, STARS).value;
      InnerStarsReturn(v, m);
      t := v[..m] + v + v[m + 3..];
    }
  }

  /** Redacting v is sure to remove it, from every text, iff v is safe. */
  lemma AlwaysRemovedIff(v: string)
    requires v != ""
    ensures (forall t :: !Survives(t, v)) <==> StarSafe(v)
  {
    if StarSafe(v) {
      forall t ensures !Survives(t, v) {
        RedactedIsGone(t, [v], v);
      }
    } else {
      var t := UnsafeSurvives(v);
    }
  }
}
