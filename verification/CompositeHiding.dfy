/**
  What keeps a registered mask out of every composite's report: a backend that prints whole lines.
  Nested reports are joined without a gap, so a mask could form across the seam of two of them; a
  one-line mask cannot form across the end of a line.
 */
module CompositeHiding {
  import opened Outcomes
  import opened Text
  import opened Steps
  import opened CompositeReports
  import Commands
  import Redaction

  /** The text is empty or ends its last line. */
  predicate WholeLines(text: string) {
    text == "" || text[|text| - 1] == '\n'
  }

  /** The text is empty, or ends its last line, or ends in the replacement of a mask. */
  predicate Sealed(text: string) {
    text == "" || text[|text| - 1] == '\n' || EndsInStars(text)
  }

  predicate EndsInStars(text: string) {
    |text| >= 3 && text[|text| - 3] == text[|text| - 2] == text[|text| - 1] == '*'
  }

  // ----- seams -----

  lemma SealedConcat(a: string, b: string)
    requires Sealed(a) && Sealed(b)
    ensures Sealed(a + b)
  {
    if b == "" {
      assert a + b == a;
    }
  }

  /** No one-line safe text crosses the end of a sealed one. */
  lemma SealedStops(a: string, b: string, v: string)
    requires Sealed(a) && '\n' !in v && Redaction.StarSafe(v)
    ensures !Crosses(a, b, v)
  {
    forall p: nat | p < |a| < p + |v| ensures !OccursAt(a + b, v, p) {
      if OccursAt(a + b, v, p) {
        var t, n := a + b, |a| - 1 - p;
        assert forall k :: 0 <= k < |v| ==> v[k] == t[p..p + |v|][k] == t[p + k];
        assert v[n] == a[|a| - 1];
        if n >= 2 {
          Redaction.StarsAt(v, n - 2);
        }
      }
    }
  }

  lemma SeamLacks(a: string, b: string, v: string)
    requires v != "" && Redaction.StarSafe(v) && (|v| == 1 || (Sealed(a) && '\n' !in v))
    requires !Contains(a, v) && !Contains(b, v)
    ensures !Contains(a + b, v)
  {
    if Contains(a + b, v) {
      OccursSplit(a, b, v);
      if |v| > 1 {
        SealedStops(a, b, v);
      }
    }
  }

  // ----- what display and redaction leave of the end of a text -----

  lemma {:induction false} LastLineEmpty(text: string)
    requires text != "" && WholeLines(text)
    ensures var parts := Split(text, '\n'); |parts| > 1 && parts[|parts| - 1] == ""
  {
    var init := text[..|text| - 1];
    assert text == init + ['\n'] + "";
    SplitConcat(init, "", '\n');
  }

  lemma {:induction false} DisplayedEnd(lines: seq<string>, debug: bool)
    requires lines != [] && lines[|lines| - 1] == ""
    ensures var out := Commands.Displayed(lines, debug); out != [] && out[|out| - 1] == ""
  {
    if |lines| == 1 {
      Commands.OrdinaryRendered("", debug);
      Commands.LoneLine("", debug);
      assert lines == [""];
    } else {
      DisplayedEnd(lines[1..], debug);
    }
  }

  lemma {:induction false} JoinEnd(parts: seq<string>)
    requires parts != [] && parts[|parts| - 1] == ""
    ensures WholeLines(Join(parts, '\n'))
  {
    if |parts| > 1 {
      JoinEnd(parts[1..]);
    }
  }

  lemma DisplayWholeLines(text: string, debug: bool)
    requires WholeLines(text)
    ensures WholeLines(Commands.Display(text, debug))
  {
    if text == "" {
      NothingShown(debug);
    } else {
      LastLineEmpty(text);
      DisplayedEnd(Split(text, '\n'), debug);
      JoinEnd(Commands.Displayed(Split(text, '\n'), debug));
    }
  }

  /** The text is sealed once a replacement stands before it. */
  predicate SealedAfterStars(t: string) {
    Sealed(Redaction.STARS + t)
  }

  lemma RestAfterStars(t: string, e: nat)
    requires SealedAfterStars(t) && e <= |t|
    ensures SealedAfterStars(t[e..])
  {
    var was, now := Redaction.STARS + t, Redaction.STARS + t[e..];
    assert forall j :: 3 <= j < |now| ==> now[j] == was[j + e];
  }

  lemma {:induction false} ReplaceAfterStars(t: string, v: string)
    requires v != "" && SealedAfterStars(t)
    ensures SealedAfterStars(Redaction.ReplaceAll(t, v))
    decreases |t|
  {
    var i := Index(t, v);
    if i.Some? {
      RestAfterStars(t, i.value + |v|);
      ReplaceAfterStars(t[i.value + |v|..], v);
      ReplaceTurnSealed(t, v, i.value);
    } else {
      ReplaceNothing(t, v);
    }
  }

  lemma ReplaceSealed(t: string, v: string)
    requires v != "" && Sealed(t)
    ensures Sealed(Redaction.ReplaceAll(t, v))
  {
    if Index(t, v).Some? {
      SealedConcat(Redaction.STARS, t);
      ReplaceAfterStars(t, v);
      ReplaceTurn(t, v, Index(t, v).value);
      LongSealed(Redaction.ReplaceAll(t, v));
    } else {
      ReplaceNothing(t, v);
    }
  }

  lemma LongSealed(t: string)
    requires |t| >= 3 && SealedAfterStars(t)
    ensures Sealed(t)
  {
  }

  lemma ReplaceNothing(t: string, v: string)
    requires v != "" && Index(t, v).None?
    ensures Redaction.ReplaceAll(t, v) == t
  {
  }

  lemma ReplaceTurnSealed(t: string, v: string, i: nat)
    requires v != "" && Index(t, v) == Some(i) && SealedAfterStars(Redaction.ReplaceAll(t[i + |v|..], v))
    ensures Sealed(Redaction.ReplaceAll(t, v)) && SealedAfterStars(Redaction.ReplaceAll(t, v))
  {
    ReplaceTurn(t, v, i);
    StarsSeal(t[..i], Redaction.ReplaceAll(t[i + |v|..], v));
  }

  lemma ReplaceTurn(t: string, v: string, i: nat)
    requires v != "" && Index(t, v) == Some(i)
    ensures Redaction.ReplaceAll(t, v) == t[..i] + Redaction.STARS + Redaction.ReplaceAll(t[i + |v|..], v)
  {
  }

  lemma StarsSeal(a: string, r: string)
    requires SealedAfterStars(r)
    ensures Sealed(a + Redaction.STARS + r) && SealedAfterStars(a + Redaction.STARS + r)
  {
    assert a + Redaction.STARS + r == a + (Redaction.STARS + r);
    PrefixSealed(a, Redaction.STARS + r);
    PrefixSealed(Redaction.STARS, a + Redaction.STARS + r);
  }

  lemma PrefixSealed(a: string, b: string)
    requires b != "" && Sealed(b)
    ensures Sealed(a + b)
  {
  }

  lemma {:induction false} RedactSealed(t: string, masks: seq<string>)
    requires Sealed(t)
    ensures Sealed(Redaction.Redact(t, masks))
    decreases masks
  {
    if masks != [] {
      if masks[0] != "" {
        ReplaceSealed(t, masks[0]);
      }
      RedactSealed(if masks[0] == "" then t else Redaction.ReplaceAll(t, masks[0]), masks[1..]);
    }
  }

  // ----- the guarantee -----

  ghost predicate Lacks(report: Report, v: string) {
    !Contains(report.stdout, v) && !Contains(report.stderr, v)
  }

  /** The backend ends every line it prints. */
  ghost predicate PrintsWholeLines(o: Oracle) {
    forall clock, step, command, env :: var r := o.exec(clock, step, command, env);
      r.Ok? ==> WholeLines(r.value.stdout) && WholeLines(r.value.stderr)
  }

  /** Nothing the backend prints can leave v in two reports: v is one character, or one line among whole lines. */
  ghost predicate Unbroken(o: Oracle, v: string) {
    |v| == 1 || ('\n' !in v && PrintsWholeLines(o))
  }

  /** The output lacks v, and no v begins in it and ends in what follows. */
  ghost predicate Tight(stdout: string, stderr: string, v: string) {
    && !Contains(stdout, v) && !Contains(stderr, v)
    && (|v| == 1 || ('\n' !in v && Sealed(stdout) && Sealed(stderr)))
  }

  lemma DirectTight(o: Oracle, actions: Actions, st: State, step: Step, id: string, inputs: Env, command: string,
                    v: string)
    requires Unbroken(o, v) && v in st.masks && v != "" && Redaction.StarSafe(v)
    requires RunDirect(o, actions, st, step, id, inputs, command).Ok?
    ensures var r := RunDirect(o, actions, st, step, id, inputs, command).value;
            Tight(r.report.stdout, r.report.stderr, v)
  {
    var e := o.exec(st.clock, step, command, st.ctx.env + step.env + inputs).value;
    var st' := AfterExec(st, id, e);
    var debug := ShowDebug(st'.ctx.env);
    DirectRedacted(o, actions, st, step, id, inputs, command, v);
    if |v| > 1 {
      DisplayWholeLines(e.stdout, debug);
      DisplayWholeLines(e.stderr, debug);
      RedactSealed(Commands.Display(e.stdout, debug), st'.masks);
      RedactSealed(Commands.Display(e.stderr, debug), st'.masks);
    }
  }

  lemma NothingTight(v: string)
    requires v != "" && (|v| == 1 || '\n' !in v)
    ensures Tight("", "", v)
  {
  }

  lemma AppendTight(n: Nested, s: Stepped, v: string)
    requires v != "" && Redaction.StarSafe(v)
    requires Tight(n.stdout, n.stderr, v) && Tight(s.report.stdout, s.report.stderr, v)
    ensures Tight(Append(n, s).stdout, Append(n, s).stderr, v)
  {
    if |v| > 1 {
      SealedConcat(n.stdout, s.report.stdout);
      SealedConcat(n.stderr, s.report.stderr);
    }
    SeamLacks(n.stdout, s.report.stdout, v);
    SeamLacks(n.stderr, s.report.stderr, v);
  }

  lemma {:induction false} StepTight(o: Oracle, actions: Actions, depth: nat, st: State, step: Step, id: string,
                                     v: string)
    requires depth <= MAX_DEPTH && RunStep(o, actions, depth, st, step, id).Ok?
    requires Unbroken(o, v) && v in st.masks && v != "" && Redaction.StarSafe(v)
    ensures var r := RunStep(o, actions, depth, st, step, id).value; Tight(r.report.stdout, r.report.stderr, v)
    decreases MAX_DEPTH - depth, 1, 0
  {
    NothingTight(v);
    StepCame(o, actions, depth, st, step, id);
    var r := RunStep(o, actions, depth, st, step, id).value;
    if r != SkippedStep(st, id) {
      if IsComposite(actions, step) {
        CompositeCameTight(o, actions, depth, st, step, id, r, v);
      } else {
        DirectCameTight(o, actions, depth, st, step, id, r, v);
      }
    }
  }

  lemma DirectCameTight(o: Oracle, actions: Actions, depth: nat, st: State, step: Step, id: string, r: Stepped,
                        v: string)
    requires depth <= MAX_DEPTH && Came(o, actions, depth, st, step, id, r) && !IsComposite(actions, step)
    requires Unbroken(o, v) && v in st.masks && v != "" && Redaction.StarSafe(v)
    ensures Tight(r.report.stdout, r.report.stderr, v)
  {
    var start := Prepare(o, actions, st.ctx, step, id).value;
    DirectTight(o, actions, st, step, id, start.0, start.1, v);
  }

  lemma {:induction false} CompositeCameTight(o: Oracle, actions: Actions, depth: nat, st: State, step: Step,
                                              id: string, r: Stepped, v: string)
    requires depth <= MAX_DEPTH && Came(o, actions, depth, st, step, id, r) && IsComposite(actions, step)
    requires Unbroken(o, v) && v in st.masks && v != "" && Redaction.StarSafe(v)
    ensures Tight(r.report.stdout, r.report.stderr, v)
    decreases MAX_DEPTH - depth, 0, 0
  {
    var inside := Inside(st, Prepare(o, actions, st.ctx, step, id).value.0);
    WholeNestedTight(o, actions, depth + 1, inside, actions[step.uses].steps, r, v);
  }

  lemma {:induction false} WholeNestedTight(o: Oracle, actions: Actions, depth: nat, n: Nested, steps: seq<Step>,
                                            r: Stepped, v: string)
    requires depth <= MAX_DEPTH && n.stdout == "" && n.stderr == ""
    requires RunNested(o, actions, depth, n, steps, 0).Ok?
    requires Reports(r, RunNested(o, actions, depth, n, steps, 0).value)
    requires Unbroken(o, v) && v in n.st.masks && v != "" && Redaction.StarSafe(v)
    ensures Tight(r.report.stdout, r.report.stderr, v)
    decreases MAX_DEPTH - depth, 3, 0
  {
    NothingTight(v);
    NestedTight(o, actions, depth, n, steps, 0, v);
  }

  lemma {:induction false} NestedTight(o: Oracle, actions: Actions, depth: nat, n: Nested, steps: seq<Step>, i: nat,
                                       v: string)
    requires depth <= MAX_DEPTH && i <= |steps| && RunNested(o, actions, depth, n, steps, i).Ok?
    requires Unbroken(o, v) && v in n.st.masks && v != "" && Redaction.StarSafe(v)
    requires Tight(n.stdout, n.stderr, v)
    ensures var n' := RunNested(o, actions, depth, n, steps, i).value; Tight(n'.stdout, n'.stderr, v)
    decreases MAX_DEPTH - depth, 2, |steps| - i
  {
    if i < |steps| {
      NestedTurn(o, actions, depth, n, steps, i);
      var s := RunStep(o, actions, depth, n.st, steps[i], StepId(steps[i], i)).value;
      StepTight(o, actions, depth, n.st, steps[i], StepId(steps[i], i), v);
      StepIsolated(o, actions, depth, n.st, steps[i], StepId(steps[i], i));
      AppendTight(n, s, v);
      if !(s.report.conclusion == Failure && !steps[i].continueOnError) {
        NestedTight(o, actions, depth, Append(n, s), steps, i + 1, v);
      }
    }
  }

  /**
    A safe one-line mask registered before a step begins is in no part of the step's report, however
    deep composites nest in it, if the backend ends every line it prints; a mask of one character is
    not whatever the backend prints.
   */
  lemma RegisteredBeforeHidden(o: Oracle, actions: Actions, depth: nat, st: State, step: Step, id: string, v: string)
    requires depth <= MAX_DEPTH && RunStep(o, actions, depth, st, step, id).Ok?
    requires Unbroken(o, v) && v in st.masks && v != "" && Redaction.StarSafe(v)
    ensures Lacks(RunStep(o, actions, depth, st, step, id).value.report, v)
  {
    StepTight(o, actions, depth, st, step, id, v);
  }
}
