/**
  Which steps can show a registered mask: those that execute at least two steps directly, through any
  nesting of composites. The clock of the state counts the executions.
 */
module CompositeExposure {
  import opened Outcomes
  import opened Text
  import opened Steps
  import opened CompositeReports
  import opened CompositeHiding
  import Commands
  import Redaction

  type Backend = (nat, Step, string, Env) -> Result<ExecResult, string>

  function WithExec(o: Oracle, b: Backend): Oracle {
    o.(exec := b)
  }

  /** The step ends with v registered and v in its report. */
  ghost predicate Shows(o: Oracle, actions: Actions, depth: nat, st: State, step: Step, id: string, v: string)
    requires depth <= MAX_DEPTH
  {
    var r := RunStep(o, actions, depth, st, step, id);
    r.Ok? && v in r.value.st.masks && !Lacks(r.value.report, v)
  }

  /** Some backend makes the step show v. */
  ghost predicate CanShow(o: Oracle, actions: Actions, depth: nat, st: State, step: Step, id: string, v: string)
    requires depth <= MAX_DEPTH
  {
    exists b: Backend :: Shows(WithExec(o, b), actions, depth, st, step, id, v)
  }

  /** Some backend makes the step show a registered one-line mask that redaction removes from every text. */
  ghost predicate Exposed(o: Oracle, actions: Actions, depth: nat, st: State, step: Step, id: string)
    requires depth <= MAX_DEPTH
  {
    exists v :: v != "" && '\n' !in v && Redaction.StarSafe(v) && CanShow(o, actions, depth, st, step, id, v)
  }

  /** Some character other than the star and the newline is not a registered mask by itself. */
  ghost predicate SomethingPrints(masks: seq<string>) {
    exists c: char :: c != '*' && c != '\n' && [c] !in masks
  }

  predicate RunsTwo(o: Oracle, actions: Actions, depth: nat, st: State, step: Step, id: string)
    requires depth <= MAX_DEPTH
  {
    var r := RunStep(o, actions, depth, st, step, id);
    r.Ok? && r.value.st.clock >= st.clock + 2
  }

  /** With some backend the step executes two steps or more. */
  ghost predicate CanRunTwo(o: Oracle, actions: Actions, depth: nat, st: State, step: Step, id: string)
    requires depth <= MAX_DEPTH
  {
    exists b: Backend :: RunsTwo(WithExec(o, b), actions, depth, st, step, id)
  }

  // ----- one execution hides its masks -----

  /** Between the two states nothing was executed, and so nothing registered. */
  predicate Idle(before: State, after: State) {
    after.clock == before.clock && after.masks == before.masks
  }

  /** What a run of at most one execution prints and registers. */
  ghost predicate OneAtMost(before: State, after: State, stdout: string, stderr: string, v: string) {
    && (after.clock == before.clock ==> Idle(before, after) && stdout == "" && stderr == "")
    && (after.clock == before.clock + 1 && v in after.masks ==> !Contains(stdout, v) && !Contains(stderr, v))
  }

  lemma NothingOneAtMost(st: State, after: State, v: string)
    requires Idle(st, after)
    ensures OneAtMost(st, after, "", "", v)
  {
  }

  lemma DirectOneAtMost(o: Oracle, actions: Actions, st: State, step: Step, id: string, inputs: Env, command: string,
                        v: string)
    requires RunDirect(o, actions, st, step, id, inputs, command).Ok? && v != "" && Redaction.StarSafe(v)
    ensures var r := RunDirect(o, actions, st, step, id, inputs, command).value;
            OneAtMost(st, r.st, r.report.stdout, r.report.stderr, v)
  {
    if v in RunDirect(o, actions, st, step, id, inputs, command).value.st.masks {
      DirectRedacted(o, actions, st, step, id, inputs, command, v);
    }
  }

  lemma {:induction false} StepOneAtMost(o: Oracle, actions: Actions, depth: nat, st: State, step: Step, id: string,
                                         v: string)
    requires depth <= MAX_DEPTH && RunStep(o, actions, depth, st, step, id).Ok?
    requires v != "" && Redaction.StarSafe(v)
    ensures var r := RunStep(o, actions, depth, st, step, id).value;
            OneAtMost(st, r.st, r.report.stdout, r.report.stderr, v)
    decreases MAX_DEPTH - depth, 1, 0
  {
    StepCame(o, actions, depth, st, step, id);
    var r := RunStep(o, actions, depth, st, step, id).value;
    if r == SkippedStep(st, id) {
      NothingOneAtMost(st, r.st, v);
    } else {
      if IsComposite(actions, step) {
        CompositeCame(o, actions, depth, st, step, id, r, v);
      } else {
        DirectCame(o, actions, depth, st, step, id, r, v);
      }
    }
  }

  lemma DirectCame(o: Oracle, actions: Actions, depth: nat, st: State, step: Step, id: string, r: Stepped, v: string)
    requires depth <= MAX_DEPTH && Came(o, actions, depth, st, step, id, r) && !IsComposite(actions, step)
    requires v != "" && Redaction.StarSafe(v)
    ensures OneAtMost(st, r.st, r.report.stdout, r.report.stderr, v)
  {
    var start := Prepare(o, actions, st.ctx, step, id).value;
    DirectOneAtMost(o, actions, st, step, id, start.0, start.1, v);
  }

  lemma {:induction false} CompositeCame(o: Oracle, actions: Actions, depth: nat, st: State, step: Step, id: string,
                                         r: Stepped, v: string)
    requires depth <= MAX_DEPTH && Came(o, actions, depth, st, step, id, r) && IsComposite(actions, step)
    requires v != "" && Redaction.StarSafe(v)
    ensures OneAtMost(st, r.st, r.report.stdout, r.report.stderr, v)
    decreases MAX_DEPTH - depth, 0, 0
  {
    var inside := Inside(st, Prepare(o, actions, st.ctx, step, id).value.0);
    WholeOneAtMost(o, actions, depth + 1, st, inside, actions[step.uses].steps, r, v);
  }

  lemma {:induction false} WholeOneAtMost(o: Oracle, actions: Actions, depth: nat, before: State, n: Nested,
                                          steps: seq<Step>, r: Stepped, v: string)
    requires depth <= MAX_DEPTH && n.stdout == "" && n.stderr == "" && Idle(before, n.st)
    requires RunNested(o, actions, depth, n, steps, 0).Ok?
    requires Reports(r, RunNested(o, actions, depth, n, steps, 0).value)
    requires v != "" && Redaction.StarSafe(v)
    ensures OneAtMost(before, r.st, r.report.stdout, r.report.stderr, v)
    decreases MAX_DEPTH - depth, 3, 0
  {
    NothingOneAtMost(before, n.st, v);
    NestedOneAtMost(o, actions, depth, before, n, steps, 0, v);
  }

  lemma {:induction false} NestedOneAtMost(o: Oracle, actions: Actions, depth: nat, before: State, n: Nested,
                                           steps: seq<Step>, i: nat, v: string)
    requires depth <= MAX_DEPTH && i <= |steps| && RunNested(o, actions, depth, n, steps, i).Ok?
    requires v != "" && Redaction.StarSafe(v)
    requires before.clock <= n.st.clock && OneAtMost(before, n.st, n.stdout, n.stderr, v)
    ensures var n' := RunNested(o, actions, depth, n, steps, i).value;
            OneAtMost(before, n'.st, n'.stdout, n'.stderr, v)
    decreases MAX_DEPTH - depth, 2, |steps| - i
  {
    if i < |steps| {
      NestedTurn(o, actions, depth, n, steps, i);
      var s := RunStep(o, actions, depth, n.st, steps[i], StepId(steps[i], i)).value;
      StepOneAtMost(o, actions, depth, n.st, steps[i], StepId(steps[i], i), v);
      StepIsolated(o, actions, depth, n.st, steps[i], StepId(steps[i], i));
      AppendOneAtMost(before, n, s, v);
      if !(s.report.conclusion == Failure && !steps[i].continueOnError) {
        NestedOneAtMost(o, actions, depth, before, Append(n, s), steps, i + 1, v);
      }
    }
  }

  lemma AppendOneAtMost(before: State, n: Nested, s: Stepped, v: string)
    requires before.clock <= n.st.clock <= s.st.clock
    requires OneAtMost(before, n.st, n.stdout, n.stderr, v)
    requires OneAtMost(n.st, s.st, s.report.stdout, s.report.stderr, v)
    ensures OneAtMost(before, s.st, Append(n, s).stdout, Append(n, s).stderr, v)
  {
    var n' := Append(n, s);
    if n.st.clock == before.clock {
      assert n'.stdout == s.report.stdout && n'.stderr == s.report.stderr;
    } else if s.st.clock == n.st.clock {
      assert n'.stdout == n.stdout && n'.stderr == n.stderr;
    }
  }

  /** A step that executes at most one step shows no safe mask registered by its end. */
  lemma OneExecutionHides(o: Oracle, actions: Actions, depth: nat, st: State, step: Step, id: string, v: string)
    requires depth <= MAX_DEPTH && RunStep(o, actions, depth, st, step, id).Ok?
    requires RunStep(o, actions, depth, st, step, id).value.st.clock <= st.clock + 1
    requires v != "" && Redaction.StarSafe(v)
    ensures !Shows(o, actions, depth, st, step, id, v)
  {
    StepOneAtMost(o, actions, depth, st, step, id, v);
    StepIsolated(o, actions, depth, st, step, id);
    NothingContained("", v);
  }

  lemma NothingContained(t: string, v: string)
    requires |t| < |v|
    ensures !Contains(t, v)
  {
  }

  // ----- two executions can show one -----

  /** The line sets an output by one of the two deprecated stdout commands. */
  predicate SetsOutput(line: string) {
    HasPrefix(line, "::set-output name=") || HasPrefix(line, "##[set-output name=")
  }

  /** The line is displayed as it stands, does nothing else, and holds no registered mask. */
  ghost predicate Clear(line: string, masks: seq<string>) {
    && '\n' !in line && Commands.Render(line, false) == Some(line) && !SetsOutput(line)
    && forall m :: m in masks && m != "" ==> !Contains(line, m)
  }

  /** v can be printed in two lines, the second perhaps empty, though the masks and v itself are registered. */
  ghost predicate CutAt(v: string, masks: seq<string>, k: nat) {
    k <= |v| && Clear(v[..k], masks) && Clear(v[k..], masks + [v])
  }

  ghost predicate Printable(v: string, masks: seq<string>) {
    exists k: nat :: CutAt(v, masks, k)
  }

  /** Print one part of v at the first execution, the rest before registering v at the second, then nothing. */
  datatype Script = Script(start: nat, masks: seq<string>, first: string, second: string, v: string)

  ghost predicate Works(p: Script) {
    Clear(p.first, p.masks) && Clear(p.second, p.masks + [p.v]) && '\n' !in p.v
  }

  function Says(p: Script, clock: nat): string {
    if clock == p.start then p.first
    else if clock == p.start + 1 then p.second + ['\n'] + (Commands.ADD_MASK + p.v)
    else ""
  }

  function Shown(p: Script, clock: nat): string {
    if clock == p.start then p.first else if clock == p.start + 1 then p.second else ""
  }

  /** What the executions from one time up to another show. */
  function ShownIn(p: Script, from: nat, until: nat): string
    decreases until
  {
    if until <= from then "" else ShownIn(p, from, until - 1) + Shown(p, until - 1)
  }

  function MasksAt(p: Script, clock: nat): seq<string> {
    if clock <= p.start + 1 then p.masks else p.masks + [p.v]
  }

  /** The same result with other output; outputs that were set on stdout are set in the output file instead. */
  function Saying(r: ExecResult, text: string): ExecResult {
    r.(stdout := text, stderr := "", legacyOutputs := map[], fileOutputs := r.legacyOutputs + r.fileOutputs)
  }

  /** The backend b, made to follow the script. */
  function Scripted(p: Script, b: Backend): Backend {
    (clock: nat, step: Step, command: string, env: Env) =>
      var r := b(clock, step, command, env);
      if r.Err? then r else Ok(Saying(r.value, Says(p, clock)))
  }

  lemma {:induction false} ShownJoins(p: Script, from: nat, mid: nat, until: nat)
    requires from <= mid <= until
    ensures ShownIn(p, from, until) == ShownIn(p, from, mid) + ShownIn(p, mid, until)
    decreases until
  {
    if mid < until {
      ShownJoins(p, from, mid, until - 1);
    }
  }

  lemma {:induction false} ShownInFull(p: Script, until: nat)
    requires until >= p.start + 2
    ensures ShownIn(p, p.start, until) == p.first + p.second
    decreases until
  {
    if until == p.start + 2 {
      assert ShownIn(p, p.start, p.start + 1) == "" + p.first == p.first;
    } else {
      ShownInFull(p, until - 1);
    }
  }

  /** A line displayed as it stands without debug lines is so with them. */
  lemma ClearRendered(line: string, masks: seq<string>, debug: bool)
    requires Clear(line, masks)
    ensures Commands.Render(line, debug) == Some(line) && !Commands.IsAddMask(line)
  {
  }

  lemma ClearShown(line: string, masks: seq<string>, debug: bool)
    requires Clear(line, masks)
    ensures Commands.Masks(line) == [] && Redaction.Redact(Commands.Display(line, debug), masks) == line
  {
    ClearRendered(line, masks, debug);
    LoneLine(line, debug);
    Redaction.RedactIsIdentity(line, masks);
  }

  lemma NothingClear(masks: seq<string>)
    ensures Clear("", masks)
  {
    Commands.OrdinaryRendered("", false);
    forall m | m in masks && m != "" ensures !Contains("", m) {
      NothingContained("", m);
    }
  }

  /** The second turn of the script: a line, then the registration. */
  lemma ThenMaskShown(line: string, v: string, masks: seq<string>, debug: bool)
    requires Clear(line, masks) && '\n' !in v
    ensures var text := line + ['\n'] + (Commands.ADD_MASK + v);
            Commands.Masks(text) == [v] && Redaction.Redact(Commands.Display(text, debug), masks) == line
  {
    var text, cmd := line + ['\n'] + (Commands.ADD_MASK + v), Commands.ADD_MASK + v;
    SplitFirst(line, cmd, '\n');
    SplitNone(cmd, '\n');
    var lines := [line, cmd];
    assert Split(text, '\n') == lines && lines[1..] == [cmd] && [cmd][1..] == [];
    ClearRendered(line, masks, debug);
    assert Commands.MaskValues([cmd]) == [v] + Commands.MaskValues([]) == [v];
    Commands.LoneLine(cmd, debug);
    assert Commands.Displayed(lines, debug) == [line];
    Redaction.RedactIsIdentity(line, masks);
  }

  /** One execution under the script. */
  lemma ScriptTurn(p: Script, clock: nat, debug: bool)
    requires Works(p) && p.start <= clock
    ensures MasksAt(p, clock) + Commands.Masks(Says(p, clock)) + Commands.Masks("") == MasksAt(p, clock + 1)
    ensures Redaction.Redact(Commands.Display(Says(p, clock), debug), MasksAt(p, clock + 1)) == Shown(p, clock)
    ensures Redaction.Redact(Commands.Display("", debug), MasksAt(p, clock + 1)) == ""
  {
    NothingClear(MasksAt(p, clock + 1));
    ClearShown("", MasksAt(p, clock + 1), debug);
    if clock == p.start {
      ClearShown(p.first, p.masks, debug);
    } else if clock == p.start + 1 {
      ThenMaskShown(p.second, p.v, p.masks + [p.v], debug);
    }
  }

  // ----- a scripted run follows the run it is made from -----

  /** The same contexts and executions; the masks are the script's. */
  predicate Follows(p: Script, st: State, su: State) {
    su.ctx == st.ctx && su.clock == st.clock && p.start <= su.clock && su.masks == MasksAt(p, su.clock)
  }

  predicate StepFollows(p: Script, from: nat, r: Stepped, q: Stepped) {
    && Follows(p, r.st, q.st) && from <= q.st.clock
    && q.report.conclusion == r.report.conclusion
    && q.report.stdout == ShownIn(p, from, q.st.clock) && q.report.stderr == ""
  }

  predicate NestedFollows(p: Script, from: nat, n: Nested, m: Nested) {
    && Follows(p, n.st, m.st) && from <= m.st.clock
    && m.conclusion == n.conclusion
    && m.stdout == ShownIn(p, from, m.st.clock) && m.stderr == ""
  }

  lemma SayingSame(p: Script, st: State, su: State, id: string, e: ExecResult)
    requires Works(p) && Follows(p, st, su)
    ensures var q := Saying(e, Says(p, su.clock));
            Follows(p, AfterExec(st, id, e), AfterExec(su, id, q))
  {
    var q := Saying(e, Says(p, su.clock));
    ScriptTurn(p, su.clock, false);
    assert q.legacyOutputs + q.fileOutputs == e.legacyOutputs + e.fileOutputs;
  }

  lemma DirectFollows(o: Oracle, b: Backend, p: Script, actions: Actions, st: State, su: State, step: Step, id: string,
                      inputs: Env, command: string)
    requires Works(p) && Follows(p, st, su)
    requires RunDirect(WithExec(o, b), actions, st, step, id, inputs, command).Ok?
    ensures var r := RunDirect(WithExec(o, b), actions, st, step, id, inputs, command);
            var q := RunDirect(WithExec(o, Scripted(p, b)), actions, su, step, id, inputs, command);
            q.Ok? && StepFollows(p, su.clock, r.value, q.value)
  {
    var e := b(st.clock, step, command, st.ctx.env + step.env + inputs).value;
    SayingSame(p, st, su, id, e);
    var after := AfterExec(su, id, Saying(e, Says(p, su.clock)));
    ScriptTurn(p, su.clock, ShowDebug(after.ctx.env));
    assert ShownIn(p, su.clock, su.clock) == "";
    assert ShownIn(p, su.clock, su.clock + 1) == "" + Shown(p, su.clock) == Shown(p, su.clock);
  }

  lemma {:induction false} StepFollowed(o: Oracle, b: Backend, p: Script, actions: Actions, depth: nat, st: State,
                                        su: State, step: Step, id: string)
    requires depth <= MAX_DEPTH && Works(p) && Follows(p, st, su)
    requires RunStep(WithExec(o, b), actions, depth, st, step, id).Ok?
    ensures var r := RunStep(WithExec(o, b), actions, depth, st, step, id);
            var q := RunStep(WithExec(o, Scripted(p, b)), actions, depth, su, step, id);
            q.Ok? && StepFollows(p, su.clock, r.value, q.value)
    decreases MAX_DEPTH - depth, 1, 0
  {
    var o1, o2 := WithExec(o, b), WithExec(o, Scripted(p, b));
    if step.cond != "" && !o1.evalBool(step.cond, st.ctx).value {
    } else {
      var start := Prepare(o1, actions, st.ctx, step, id).value;
      assert Prepare(o2, actions, su.ctx, step, id) == Ok(start);
      if IsComposite(actions, step) {
        var action := actions[step.uses];
        CompositeFollowed(o, b, p, actions, depth, st, su, action.steps, action.outputs, start.0);
      } else {
        DirectFollows(o, b, p, actions, st, su, step, id, start.0, start.1);
      }
    }
  }

  lemma {:induction false} CompositeFollowed(o: Oracle, b: Backend, p: Script, actions: Actions, depth: nat, st: State,
                                             su: State, steps: seq<Step>, outputs: map<string, string>, baseEnv: Env)
    requires depth <= MAX_DEPTH && Works(p) && Follows(p, st, su)
    requires RunComposite(WithExec(o, b), actions, depth, st, steps, outputs, baseEnv).Ok?
    ensures var r := RunComposite(WithExec(o, b), actions, depth, st, steps, outputs, baseEnv);
            var q := RunComposite(WithExec(o, Scripted(p, b)), actions, depth, su, steps, outputs, baseEnv);
            q.Ok? && NestedFollows(p, su.clock, r.value.0, q.value.0) && q.value.1 == r.value.1
    decreases MAX_DEPTH - depth, 0, 0
  {
    NestedFollowed(o, b, p, actions, depth + 1, su.clock, Inside(st, baseEnv), Inside(su, baseEnv), steps, 0);
  }

  lemma {:induction false} NestedFollowed(o: Oracle, b: Backend, p: Script, actions: Actions, depth: nat, from: nat,
                                          n: Nested, m: Nested, steps: seq<Step>, i: nat)
    requires depth <= MAX_DEPTH && i <= |steps| && Works(p) && NestedFollows(p, from, n, m)
    requires RunNested(WithExec(o, b), actions, depth, n, steps, i).Ok?
    ensures var r := RunNested(WithExec(o, b), actions, depth, n, steps, i);
            var q := RunNested(WithExec(o, Scripted(p, b)), actions, depth, m, steps, i);
            q.Ok? && NestedFollows(p, from, r.value, q.value)
    decreases MAX_DEPTH - depth, 2, |steps| - i
  {
    if i < |steps| {
      var o1, o2, id := WithExec(o, b), WithExec(o, Scripted(p, b)), StepId(steps[i], i);
      NestedTurn(o1, actions, depth, n, steps, i);
      NestedTurn(o2, actions, depth, m, steps, i);
      StepFollowed(o, b, p, actions, depth, n.st, m.st, steps[i], id);
      var r := RunStep(o1, actions, depth, n.st, steps[i], id).value;
      var q := RunStep(o2, actions, depth, m.st, steps[i], id).value;
      AppendFollows(p, from, n, m, r, q);
      if !(r.report.conclusion == Failure && !steps[i].continueOnError) {
        NestedFollowed(o, b, p, actions, depth, from, Append(n, r), Append(m, q), steps, i + 1);
      }
    }
  }

  lemma AppendFollows(p: Script, from: nat, n: Nested, m: Nested, r: Stepped, q: Stepped)
    requires NestedFollows(p, from, n, m) && StepFollows(p, m.st.clock, r, q)
    ensures NestedFollows(p, from, Append(n, r), Append(m, q))
  {
    ShownJoins(p, from, m.st.clock, q.st.clock);
  }

  // ----- the exact condition -----

  lemma ScriptShows(o: Oracle, b: Backend, p: Script, actions: Actions, depth: nat, st: State, step: Step, id: string)
    requires depth <= MAX_DEPTH && RunsTwo(WithExec(o, b), actions, depth, st, step, id)
    requires Works(p) && p.start == st.clock && p.masks == st.masks && p.v == p.first + p.second
    ensures Shows(WithExec(o, Scripted(p, b)), actions, depth, st, step, id, p.v)
  {
    StepFollowed(o, b, p, actions, depth, st, st, step, id);
    var q := RunStep(WithExec(o, Scripted(p, b)), actions, depth, st, step, id).value;
    ShownInFull(p, q.st.clock);
    assert p.v[0..|p.v|] == p.v;
    assert OccursAt(q.report.stdout, p.v, 0);
  }

  lemma CutWorks(st: State, v: string, k: nat) returns (p: Script)
    requires '\n' !in v && CutAt(v, st.masks, k)
    ensures Works(p) && p.start == st.clock && p.masks == st.masks && p.v == v == p.first + p.second
  {
    p := Script(st.clock, st.masks, v[..k], v[k..], v);
  }

  /** Some backend makes the step show v iff some backend makes it execute two steps. */
  lemma ShowsIff(o: Oracle, actions: Actions, depth: nat, st: State, step: Step, id: string, v: string)
    requires depth <= MAX_DEPTH && v != "" && '\n' !in v && Redaction.StarSafe(v) && Printable(v, st.masks)
    ensures CanShow(o, actions, depth, st, step, id, v) <==> CanRunTwo(o, actions, depth, st, step, id)
  {
    if CanShow(o, actions, depth, st, step, id, v) {
      ShowingTakesTwo(o, actions, depth, st, step, id, v);
    }
    if CanRunTwo(o, actions, depth, st, step, id) {
      var k: nat :| CutAt(v, st.masks, k);
      var p := CutWorks(st, v, k);
      var b: Backend :| RunsTwo(WithExec(o, b), actions, depth, st, step, id);
      ScriptShows(o, b, p, actions, depth, st, step, id);
    }
  }

  lemma ShowingTakesTwo(o: Oracle, actions: Actions, depth: nat, st: State, step: Step, id: string, v: string)
    requires depth <= MAX_DEPTH && v != "" && Redaction.StarSafe(v) && CanShow(o, actions, depth, st, step, id, v)
    ensures CanRunTwo(o, actions, depth, st, step, id)
  {
    var b: Backend :| Shows(WithExec(o, b), actions, depth, st, step, id, v);
    if !RunsTwo(WithExec(o, b), actions, depth, st, step, id) {
      OneExecutionHides(WithExec(o, b), actions, depth, st, step, id, v);
    }
  }

  /** A value of one character that is not registered can be printed. */
  lemma CharacterPrintable(c: char, masks: seq<string>)
    requires c != '\n' && [c] !in masks
    ensures Printable([c], masks)
  {
    var v := [c];
    forall m | m in masks && m != "" ensures !Contains(v, m) {
      forall i: nat ensures !OccursAt(v, m, i) {
        assert i + |m| <= 1 ==> i == 0 && v[0..|m|] == v;
      }
    }
    NothingClear(masks + [v]);
    assert Commands.Render(v, false) == Some(v);
    assert v[..1] == v && v[1..] == "";
    assert CutAt(v, masks, 1);
  }

  lemma FirstCharacterInside(t: string, v: string)
    requires v != "" && Contains(t, v)
    ensures Contains(t, [v[0]])
  {
    var i: nat :| OccursAt(t, v, i);
    assert t[i] == t[i..i + |v|][0];
    assert OccursAt(t, [v[0]], i);
  }

  /** Where every printable character is a mask, nothing can be shown. */
  lemma NothingPrintsHides(o: Oracle, actions: Actions, depth: nat, st: State, step: Step, id: string, v: string)
    requires depth <= MAX_DEPTH && !SomethingPrints(st.masks)
    requires v != "" && '\n' !in v && Redaction.StarSafe(v)
    ensures !Shows(o, actions, depth, st, step, id, v)
  {
    var c := [v[0]];
    if Shows(o, actions, depth, st, step, id, v) {
      var report := RunStep(o, actions, depth, st, step, id).value.report;
      assert v[0] in v && c in st.masks;
      Redaction.StarFreeIsSafe(c);
      RegisteredBeforeHidden(o, actions, depth, st, step, id, c);
      if Contains(report.stdout, v) {
        FirstCharacterInside(report.stdout, v);
      } else {
        FirstCharacterInside(report.stderr, v);
      }
    }
  }

  lemma ExposedNeeds(o: Oracle, actions: Actions, depth: nat, st: State, step: Step, id: string)
    requires depth <= MAX_DEPTH && Exposed(o, actions, depth, st, step, id)
    ensures CanRunTwo(o, actions, depth, st, step, id) && SomethingPrints(st.masks)
  {
    var v :| v != "" && '\n' !in v && Redaction.StarSafe(v) && CanShow(o, actions, depth, st, step, id, v);
    ShowingTakesTwo(o, actions, depth, st, step, id, v);
    var b: Backend :| Shows(WithExec(o, b), actions, depth, st, step, id, v);
    if !SomethingPrints(st.masks) {
      NothingPrintsHides(WithExec(o, b), actions, depth, st, step, id, v);
    }
  }

  /** A step is exposed iff it can execute two steps and some character can still be printed. */
  lemma ExposedIff(o: Oracle, actions: Actions, depth: nat, st: State, step: Step, id: string)
    requires depth <= MAX_DEPTH
    ensures Exposed(o, actions, depth, st, step, id) <==>
              CanRunTwo(o, actions, depth, st, step, id) && SomethingPrints(st.masks)
  {
    if Exposed(o, actions, depth, st, step, id) {
      ExposedNeeds(o, actions, depth, st, step, id);
    }
    if CanRunTwo(o, actions, depth, st, step, id) && SomethingPrints(st.masks) {
      var c: char :| c != '*' && c != '\n' && [c] !in st.masks;
      CharacterPrintable(c, st.masks);
      Redaction.StarFreeIsSafe([c]);
      ShowsIff(o, actions, depth, st, step, id, [c]);
    }
  }

  // ----- the condition before the run -----

  /** The steps executed directly when every step nested in this one runs. */
  function Count(actions: Actions, depth: nat, step: Step): nat
    requires depth <= MAX_DEPTH
    decreases MAX_DEPTH - depth, 0, 0
  {
    if !IsComposite(actions, step) then 1
    else if depth == MAX_DEPTH then 0
    else CountFrom(actions, depth + 1, actions[step.uses].steps, 0)
  }

  function CountFrom(actions: Actions, depth: nat, steps: seq<Step>, i: nat): nat
    requires depth <= MAX_DEPTH && i <= |steps|
    decreases MAX_DEPTH - depth, 1, |steps| - i
  {
    if i == |steps| then 0 else Count(actions, depth, steps[i]) + CountFrom(actions, depth, steps, i + 1)
  }

  /** No run executes more. */
  lemma {:induction false} CountBounds(o: Oracle, actions: Actions, depth: nat, st: State, step: Step, id: string)
    requires depth <= MAX_DEPTH && RunStep(o, actions, depth, st, step, id).Ok?
    ensures RunStep(o, actions, depth, st, step, id).value.st.clock <= st.clock + Count(actions, depth, step)
    decreases MAX_DEPTH - depth, 0, 0
  {
    if RunStep(o, actions, depth, st, step, id).value != SkippedStep(st, id) && IsComposite(actions, step) {
      var start := Prepare(o, actions, st.ctx, step, id).value;
      StepCame(o, actions, depth, st, step, id);
      NestedCountBounds(o, actions, depth + 1, Inside(st, start.0), actions[step.uses].steps, 0);
    }
  }

  lemma {:induction false} NestedCountBounds(o: Oracle, actions: Actions, depth: nat, n: Nested, steps: seq<Step>,
                                             i: nat)
    requires depth <= MAX_DEPTH && i <= |steps| && RunNested(o, actions, depth, n, steps, i).Ok?
    ensures RunNested(o, actions, depth, n, steps, i).value.st.clock
              <= n.st.clock + CountFrom(actions, depth, steps, i)
    decreases MAX_DEPTH - depth, 1, |steps| - i
  {
    if i < |steps| {
      NestedTurn(o, actions, depth, n, steps, i);
      var s := RunStep(o, actions, depth, n.st, steps[i], StepId(steps[i], i)).value;
      CountBounds(o, actions, depth, n.st, steps[i], StepId(steps[i], i));
      if !(s.report.conclusion == Failure && !steps[i].continueOnError) {
        NestedCountBounds(o, actions, depth, Append(n, s), steps, i + 1);
      }
    }
  }

  /** Whatever evaluator, action metadata and backend do, a step with at most one direct step in it is not exposed. */
  lemma OneDirectStepHides(o: Oracle, actions: Actions, depth: nat, st: State, step: Step, id: string)
    requires depth <= MAX_DEPTH && Count(actions, depth, step) <= 1
    ensures !Exposed(o, actions, depth, st, step, id)
  {
    if Exposed(o, actions, depth, st, step, id) {
      ExposedNeeds(o, actions, depth, st, step, id);
      var b: Backend :| RunsTwo(WithExec(o, b), actions, depth, st, step, id);
      CountBounds(WithExec(o, b), actions, depth, st, step, id);
    }
  }

  /** Preparing a step and substituting in it never fail. */
  ghost predicate Prepares(o: Oracle) {
    && (forall step, ctx :: o.prepare(step, ctx).Ok?)
    && (forall text, ctx :: o.subst(text, ctx).Ok?)
  }

  /** The condition holds whatever came before, as an absent one does. */
  ghost predicate AlwaysRuns(o: Oracle, step: Step) {
    step.cond != "" ==> forall ctx :: o.evalBool(step.cond, ctx) == Ok(true)
  }

  /** The step and all steps nested in it are well formed, resolve, always run and stay within the depth cap. */
  ghost predicate Plain(o: Oracle, actions: Actions, depth: nat, step: Step)
    requires depth <= MAX_DEPTH
    decreases MAX_DEPTH - depth
  {
    && (step.run == "" || step.uses == "") && (step.uses == "" || step.uses in actions) && AlwaysRuns(o, step)
    && (IsComposite(actions, step) ==>
      && depth < MAX_DEPTH
      && forall s :: s in actions[step.uses].steps ==> Plain(o, actions, depth + 1, s))
  }

  /** A backend where every step succeeds in silence. */
  const QUIET: Backend := (clock, step, command, env) => Ok(ExecResult(0, "", "", map[], map[], map[]))

  lemma {:induction false} PlainRuns(o: Oracle, actions: Actions, depth: nat, st: State, step: Step, id: string)
    requires depth <= MAX_DEPTH && Prepares(o) && Plain(o, actions, depth, step)
    ensures var r := RunStep(WithExec(o, QUIET), actions, depth, st, step, id);
            && r.Ok? && r.value.report.conclusion == Success
            && r.value.st.clock == st.clock + Count(actions, depth, step)
    decreases MAX_DEPTH - depth, 0, 0
  {
    var o' := WithExec(o, QUIET);
    var start := Prepare(o', actions, st.ctx, step, id);
    assert start.Ok?;
    if IsComposite(actions, step) {
      NestedPlainRuns(o, actions, depth + 1, Inside(st, start.value.0), actions[step.uses].steps, 0);
    }
  }

  lemma {:induction false} NestedPlainRuns(o: Oracle, actions: Actions, depth: nat, n: Nested, steps: seq<Step>, i: nat)
    requires depth <= MAX_DEPTH && i <= |steps| && Prepares(o) && n.conclusion == Success
    requires forall s :: s in steps ==> Plain(o, actions, depth, s)
    ensures var r := RunNested(WithExec(o, QUIET), actions, depth, n, steps, i);
            && r.Ok? && r.value.conclusion == Success
            && r.value.st.clock == n.st.clock + CountFrom(actions, depth, steps, i)
    decreases MAX_DEPTH - depth, 1, |steps| - i
  {
    if i < |steps| {
      var o' := WithExec(o, QUIET);
      NestedTurn(o', actions, depth, n, steps, i);
      PlainRuns(o, actions, depth, n.st, steps[i], StepId(steps[i], i));
      var s := RunStep(o', actions, depth, n.st, steps[i], StepId(steps[i], i)).value;
      NestedPlainRuns(o, actions, depth, Append(n, s), steps, i + 1);
    }
  }

  /** A plain step is exposed iff two direct steps stand in it, at any depth, and some character is still printable. */
  lemma PlainExposedIff(o: Oracle, actions: Actions, depth: nat, st: State, step: Step, id: string)
    requires depth <= MAX_DEPTH && Prepares(o) && Plain(o, actions, depth, step)
    ensures Exposed(o, actions, depth, st, step, id) <==>
              Count(actions, depth, step) >= 2 && SomethingPrints(st.masks)
  {
    ExposedIff(o, actions, depth, st, step, id);
    if Count(actions, depth, step) >= 2 {
      PlainRuns(o, actions, depth, st, step, id);
      assert RunsTwo(WithExec(o, QUIET), actions, depth, st, step, id);
    } else {
      OneDirectStepHides(o, actions, depth, st, step, id);
    }
  }
}
