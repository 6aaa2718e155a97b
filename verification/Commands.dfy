/** ProcessWorkflowCommands: the stdout-based workflow commands (internal/commands/annotations.go). */
module Commands {
  import opened Outcomes
  import opened Text

  const ADD_MASK := "::add-mask::"
  const GROUP := "::group::"
  const END_GROUP := "::endgroup::"
  const DEBUG := "::debug::"

  /** The regexp class \s. */
  predicate IsSpace(c: char) {
    c == ' ' || c == '\t' || c == '\n' || c == '\r' || c == '\U{0C}'
  }

  predicate AllSpace(s: string) {
    forall i :: 0 <= i < |s| ==> IsSpace(s[i])
  }

  predicate IsAddMask(line: string) {
    HasPrefix(line, ADD_MASK)
  }

  predicate IsEndGroup(line: string) {
    HasPrefix(line, END_GROUP) && AllSpace(line[|END_GROUP|..])
  }

  /** After `::level`: nothing or parameters introduced by a space and free of colons, then `::` and the message. */
  function MessageAfter(rest: string): Option<string> {
    var colon := Index(rest, ":");
    if colon.None? then None
    else
      var i := colon.value;
      if (i == 0 || IsSpace(rest[0])) && HasPrefix(rest[i..], "::") then Some(rest[i + 2..]) else None
  }

  function Annotated(line: string, level: string, mark: string): Option<string> {
    if HasPrefix(line, "::" + level) then
      var msg := MessageAfter(line[2 + |level|..]);
      if msg.Some? then Some(mark + msg.value) else None
    else None
  }

  const ERROR_MARK := "\U{274C} "
  const WARNING_MARK := "\U{26A0}\U{FE0F}  "
  const NOTICE_MARK := "\U{2139}\U{FE0F}  "

  /** What a line is displayed as; None when it is dropped. */
  function Render(line: string, showDebug: bool): Option<string> {
    if IsAddMask(line) || IsEndGroup(line) then None
    else if HasPrefix(line, GROUP) then Some("\U{25B6} " + line[|GROUP|..])
    else if HasPrefix(line, DEBUG) then (if showDebug then Some("\U{1F41B} " + line[|DEBUG|..]) else None)
    else
      var e := Annotated(line, "error", ERROR_MARK);
      var w := Annotated(line, "warning", WARNING_MARK);
      var n := Annotated(line, "notice", NOTICE_MARK);
      if e.Some? then e else if w.Some? then w else if n.Some? then n else Some(line)
  }

  /** What each line comes to, joined in order. */
  function Collect(lines: seq<string>, each: string -> seq<string>): seq<string> {
    if lines == [] then [] else each(lines[0]) + Collect(lines[1..], each)
  }

  /** What a line adds to the displayed lines. */
  function Shown(line: string, showDebug: bool): seq<string> {
    match Render(line, showDebug)
    case None => []
    case Some(r) => [r]
  }

  /** What a line adds to the masks. */
  function Registered(line: string): seq<string> {
    if IsAddMask(line) then [line[|ADD_MASK|..]] else []
  }

  function Displayed(lines: seq<string>, showDebug: bool): seq<string> {
    Collect(lines, line => Shown(line, showDebug))
  }

  function MaskValues(lines: seq<string>): seq<string> {
    Collect(lines, Registered)
  }

  function Display(text: string, showDebug: bool): string {
    Join(Displayed(Split(text, '\n'), showDebug), '\n')
  }

  function Masks(text: string): seq<string> {
    MaskValues(Split(text, '\n'))
  }

  lemma CollectTurn(lines: seq<string>, each: string -> seq<string>, i: nat)
    requires i < |lines|
    ensures Collect(lines[i..], each) == each(lines[i]) + Collect(lines[i + 1..], each)
  {
    assert lines[i..][0] == lines[i] && lines[i..][1..] == lines[i + 1..];
  }

  method CollectMasks(lines: seq<string>) returns (masks: seq<string>)
    ensures masks == MaskValues(lines)
  {
    masks := [];
    var i := 0;
    while i < |lines|
      invariant 0 <= i <= |lines| && MaskValues(lines) == masks + Collect(lines[i..], Registered)
    {
      CollectTurn(lines, Registered, i);
      if IsAddMask(lines[i]) {
        masks := masks + [lines[i][|ADD_MASK|..]];
      }
      i := i + 1;
    }
    assert lines[i..] == [];
  }

  /** One turn of the display loop. */
  method RenderLine(out: seq<string>, line: string, showDebug: bool) returns (out': seq<string>)
    ensures out' == out + Shown(line, showDebug)
  {
    var r := Render(line, showDebug);
    out' := if r.Some? then out + [r.value] else out;
  }

  method RenderLines(lines: seq<string>, showDebug: bool) returns (out: seq<string>)
    ensures out == Displayed(lines, showDebug)
  {
    out := [];
    var i := 0;
    while i < |lines|
      invariant 0 <= i <= |lines| && Displayed(lines, showDebug) == out + Displayed(lines[i..], showDebug)
    {
      DisplayedTurn(lines, showDebug, i);
      Regrouped(out, Shown(lines[i], showDebug), Displayed(lines[i + 1..], showDebug));
      out := RenderLine(out, lines[i], showDebug);
      i := i + 1;
    }
    assert lines[i..] == [];
  }

  lemma DisplayedTurn(lines: seq<string>, showDebug: bool, i: nat)
    requires i < |lines|
    ensures Displayed(lines[i..], showDebug) == Shown(lines[i], showDebug) + Displayed(lines[i + 1..], showDebug)
  {
    CollectTurn(lines, line => Shown(line, showDebug), i);
  }

  lemma LoneLine(line: string, showDebug: bool)
    ensures Displayed([line], showDebug) == Shown(line, showDebug) && Displayed([], showDebug) == []
    ensures MaskValues([line]) == Registered(line) && MaskValues([]) == []
  {
    CollectOne(line, l => Shown(l, showDebug));
    CollectOne(line, Registered);
  }

  lemma CollectOne(line: string, each: string -> seq<string>)
    ensures Collect([line], each) == each(line)
  {
    assert [line][1..] == [];
    assert Collect([line], each) == each([line][0]) + Collect([], each);
  }

  method ProcessWorkflowCommands(text: string, showDebug: bool) returns (display: string, masks: seq<string>)
    ensures display == Display(text, showDebug) && masks == Masks(text)
  {
    var lines := Split(text, '\n');
    masks := CollectMasks(lines);
    var out := RenderLines(lines, showDebug);
    display := Join(out, '\n');
  }

  // ----- what is displayed and what is registered -----

  lemma NotPrefixed(line: string, p: string)
    requires p != "" && (line == "" || line[0] != p[0])
    ensures !HasPrefix(line, p)
  {
  }

  lemma NotAnnotated(line: string, level: string, mark: string)
    requires line == "" || line[0] != ':'
    ensures Annotated(line, level, mark) == None
  {
    NotPrefixed(line, "::" + level);
  }

  /** Only a line that starts with a colon is a command. */
  lemma OrdinaryRendered(line: string, showDebug: bool)
    requires line == "" || line[0] != ':'
    ensures Render(line, showDebug) == Some(line) && !IsAddMask(line)
  {
    NotPrefixed(line, ADD_MASK);
    NotPrefixed(line, END_GROUP);
    NotPrefixed(line, GROUP);
    NotPrefixed(line, DEBUG);
    NotAnnotated(line, "error", ERROR_MARK);
    NotAnnotated(line, "warning", WARNING_MARK);
    NotAnnotated(line, "notice", NOTICE_MARK);
  }

  /** A mark followed by the rest of a line is one line, and no command. */
  lemma MarkedClean(line: string, mark: string, k: nat)
    requires '\n' !in line && '\n' !in mark && mark != "" && mark[0] != ':' && k <= |line|
    ensures '\n' !in mark + line[k..] && !IsAddMask(mark + line[k..])
  {
    NotPrefixed(mark + line[k..], ADD_MASK);
  }

  lemma AnnotatedClean(line: string, level: string, mark: string)
    requires '\n' !in line && '\n' !in mark && mark != "" && mark[0] != ':'
    ensures var r := Annotated(line, level, mark); r.Some? ==> '\n' !in r.value && !IsAddMask(r.value)
  {
    if Annotated(line, level, mark).Some? {
      var rest := line[2 + |level|..];
      var i := Index(rest, ":").value;
      assert rest[i + 2..] == line[2 + |level| + i + 2..];
      MarkedClean(line, mark, 2 + |level| + i + 2);
    }
  }

  lemma RenderedLine(line: string, showDebug: bool)
    requires '\n' !in line
    ensures var r := Render(line, showDebug); r.Some? ==> '\n' !in r.value && !IsAddMask(r.value)
  {
    if HasPrefix(line, GROUP) {
      MarkedClean(line, "\U{25B6} ", |GROUP|);
    }
    if HasPrefix(line, DEBUG) {
      MarkedClean(line, "\U{1F41B} ", |DEBUG|);
    }
    AnnotatedClean(line, "error", ERROR_MARK);
    AnnotatedClean(line, "warning", WARNING_MARK);
    AnnotatedClean(line, "notice", NOTICE_MARK);
  }

  lemma {:induction false} DisplayedLines(lines: seq<string>, showDebug: bool, i: nat)
    requires forall k :: 0 <= k < |lines| ==> '\n' !in lines[k]
    requires i < |Displayed(lines, showDebug)|
    ensures '\n' !in Displayed(lines, showDebug)[i] && !IsAddMask(Displayed(lines, showDebug)[i])
    decreases |lines|
  {
    RenderedLine(lines[0], showDebug);
    var r := Render(lines[0], showDebug);
    if r.None? {
      DisplayedLines(lines[1..], showDebug, i);
    } else if i > 0 {
      DisplayedLines(lines[1..], showDebug, i - 1);
    }
  }

  /**
    The displayed text never holds an ::add-mask:: line: not the value it registers, nor one a
    rendered line might form.
   */
  lemma NoMaskLineDisplayed(text: string, showDebug: bool, i: nat)
    requires i < |Split(Display(text, showDebug), '\n')|
    ensures !IsAddMask(Split(Display(text, showDebug), '\n')[i])
  {
    var out := Displayed(Split(text, '\n'), showDebug);
    SplitLacks(text, '\n');
    forall k: nat | k < |out| ensures '\n' !in out[k] && !IsAddMask(out[k]) {
      DisplayedLines(Split(text, '\n'), showDebug, k);
    }
    if out == [] {
      assert Display(text, showDebug) == "";
    } else {
      SplitJoin(out, '\n');
    }
  }

  lemma {:induction false} MaskValuesAre(lines: seq<string>, v: string)
    ensures v in MaskValues(lines) <==> ADD_MASK + v in lines
  {
    if lines != [] {
      MaskValuesAre(lines[1..], v);
      assert lines == [lines[0]] + lines[1..];
      if IsAddMask(lines[0]) {
        assert lines[0] == ADD_MASK + lines[0][|ADD_MASK|..];
      }
      assert lines[0] == ADD_MASK + v ==> lines[0][..|ADD_MASK|] == ADD_MASK && lines[0][|ADD_MASK|..] == v;
    }
  }

  /** The registered values are exactly what follows ::add-mask:: on the lines of the text. */
  lemma MasksAre(text: string, v: string)
    ensures v in Masks(text) <==> ADD_MASK + v in Split(text, '\n')
  {
    MaskValuesAre(Split(text, '\n'), v);
  }

  // ----- what each kind of line is displayed as -----

  /** What may stand between the level and the message: nothing, or a space and text without colons. */
  predicate Parameters(params: string) {
    params == "" || (params[0] in {' ', '\t', '\n', '\r', '\U{0C}'} && ':' !in params)
  }

  lemma MessageFound(params: string, msg: string)
    requires Parameters(params)
    ensures MessageAfter(params + "::" + msg) == Some(msg)
  {
    var rest, i := params + "::" + msg, |params|;
    IndexSpec(rest, ":");
    assert rest[i..i + 1] == ":";
    assert OccursAt(rest, ":", i);
    forall j: nat | j < i ensures !OccursAt(rest, ":", j) {
      assert rest[j..j + 1] == [params[j]];
    }
    assert rest[i..][..2] == "::" && rest[i + 2..] == msg;
  }

  lemma AnnotatedAs(level: string, params: string, msg: string, mark: string)
    requires Parameters(params)
    ensures Annotated("::" + level + params + "::" + msg, level, mark) == Some(mark + msg)
  {
    var line := "::" + level + params + "::" + msg;
    assert line[..2 + |level|] == "::" + level && line[2 + |level|..] == params + "::" + msg;
    MessageFound(params, msg);
  }

  lemma OtherLevel(line: string, at: nat, c: char, level: string, mark: string)
    requires at < |line| && line[at] == c && at < 2 + |level| && ("::" + level)[at] != c
    ensures Annotated(line, level, mark) == None
  {
    NoPrefixAt(line, "::" + level, at);
  }

  lemma NoPrefixAt(line: string, p: string, at: nat)
    requires at < |line| && at < |p| && line[at] != p[at]
    ensures !HasPrefix(line, p)
  {
  }

  /** A group's title is shown behind its mark. */
  lemma GroupShown(title: string, showDebug: bool)
    ensures Render("::group::" + title, showDebug) == Some("\U{25B6} " + title)
  {
    var line := "::group::" + title;
    NoPrefixAt(line, ADD_MASK, 2);
    NoPrefixAt(line, END_GROUP, 2);
    assert line[..9] == GROUP && line[9..] == title;
  }

  /** A debug line is shown behind its mark when debugging is on, and is dropped when it is not. */
  lemma DebugShown(msg: string, showDebug: bool)
    ensures Render("::debug::" + msg, showDebug) == if showDebug then Some("\U{1F41B} " + msg) else None
  {
    var line := "::debug::" + msg;
    NoPrefixAt(line, ADD_MASK, 2);
    NoPrefixAt(line, END_GROUP, 2);
    NoPrefixAt(line, GROUP, 2);
    assert line[..9] == DEBUG && line[9..] == msg;
  }

  /** The end of a group and the registration of a mask are dropped. */
  lemma DroppedLines(v: string, blank: string, showDebug: bool)
    requires forall i :: 0 <= i < |blank| ==> blank[i] in {' ', '\t', '\n', '\r', '\U{0C}'}
    ensures Render("::add-mask::" + v, showDebug) == None
    ensures Render("::endgroup::" + blank, showDebug) == None
  {
    assert ("::add-mask::" + v)[..12] == ADD_MASK;
    var line := "::endgroup::" + blank;
    assert line[..12] == END_GROUP && line[12..] == blank;
  }

  /** No line of a level is a mask, a group or a debug line. */
  lemma LevelLine(line: string, showDebug: bool)
    requires |line| > 2 && line[..2] == "::"
    requires line[2] == 'w' || line[2] == 'n' || HasPrefix(line, "::error")
    ensures !IsAddMask(line) && !IsEndGroup(line) && !HasPrefix(line, GROUP) && !HasPrefix(line, DEBUG)
  {
    NoPrefixAt(line, ADD_MASK, 2);
    NoPrefixAt(line, GROUP, 2);
    NoPrefixAt(line, DEBUG, 2);
    if HasPrefix(line, "::error") {
      assert line[..7][2] == line[2] == 'e';
      assert line[..7][3] == line[3] == 'r';
      NoPrefixAt(line, END_GROUP, 3);
    } else {
      NoPrefixAt(line, END_GROUP, 2);
    }
  }

  /** Errors, warnings and notices are shown as their message behind the mark of their level, without parameters. */
  lemma LevelsShown(params: string, msg: string, showDebug: bool)
    requires Parameters(params)
    ensures Render("::error" + params + "::" + msg, showDebug) == Some("\U{274C} " + msg)
    ensures Render("::warning" + params + "::" + msg, showDebug) == Some("\U{26A0}\U{FE0F}  " + msg)
    ensures Render("::notice" + params + "::" + msg, showDebug) == Some("\U{2139}\U{FE0F}  " + msg)
  {
    ErrorShown(params, msg, showDebug);
    WarningShown(params, msg, showDebug);
    NoticeShown(params, msg, showDebug);
  }

  lemma ErrorShown(params: string, msg: string, showDebug: bool)
    requires Parameters(params)
    ensures Render("::error" + params + "::" + msg, showDebug) == Some("\U{274C} " + msg)
  {
    var line := "::error" + params + "::" + msg;
    assert line[..7] == "::error" && line[..2] == "::";
    LevelLine(line, showDebug);
    assert line == "::" + "error" + params + "::" + msg;
    AnnotatedAs("error", params, msg, ERROR_MARK);
  }

  lemma WarningShown(params: string, msg: string, showDebug: bool)
    requires Parameters(params)
    ensures Render("::warning" + params + "::" + msg, showDebug) == Some("\U{26A0}\U{FE0F}  " + msg)
  {
    var line := "::warning" + params + "::" + msg;
    assert line[..2] == "::" && line[2] == 'w';
    LevelLine(line, showDebug);
    assert line == "::" + "warning" + params + "::" + msg;
    OtherLevel(line, 2, 'w', "error", ERROR_MARK);
    AnnotatedAs("warning", params, msg, WARNING_MARK);
  }

  lemma NoticeShown(params: string, msg: string, showDebug: bool)
    requires Parameters(params)
    ensures Render("::notice" + params + "::" + msg, showDebug) == Some("\U{2139}\U{FE0F}  " + msg)
  {
    var line := "::notice" + params + "::" + msg;
    assert line[..2] == "::" && line[2] == 'n';
    LevelLine(line, showDebug);
    assert line == "::" + "notice" + params + "::" + msg;
    OtherLevel(line, 2, 'n', "error", ERROR_MARK);
    OtherLevel(line, 2, 'n', "warning", WARNING_MARK);
    AnnotatedAs("notice", params, msg, NOTICE_MARK);
  }

  // ----- line by line -----

  lemma {:induction false} CollectConcat(a: seq<string>, b: seq<string>, each: string -> seq<string>)
    ensures Collect(a + b, each) == Collect(a, each) + Collect(b, each)
    decreases |a|
  {
    if |a| == 0 {
      NothingBefore(a, b, each);
    } else {
      CollectConcat(a[1..], b, each);
      CollectStep(a, a[0], a[1..], b, each);
    }
  }

  lemma NothingBefore(a: seq<string>, b: seq<string>, each: string -> seq<string>)
    requires |a| == 0
    ensures Collect(a + b, each) == Collect(a, each) + Collect(b, each)
  {
    assert a + b == b;
  }

  lemma CollectStep(a: seq<string>, first: string, rest: seq<string>, b: seq<string>, each: string -> seq<string>)
    requires a == [first] + rest && Collect(rest + b, each) == Collect(rest, each) + Collect(b, each)
    ensures Collect(a + b, each) == Collect(a, each) + Collect(b, each)
  {
    CollectFirst(first, rest, each);
    CollectFirst(first, rest + b, each);
    Regrouped([first], rest, b);
    Regrouped(each(first), Collect(rest, each), Collect(b, each));
  }

  lemma Regrouped(x: seq<string>, y: seq<string>, z: seq<string>)
    ensures x + (y + z) == x + y + z
  {
  }

  lemma CollectFirst(first: string, rest: seq<string>, each: string -> seq<string>)
    ensures Collect([first] + rest, each) == each(first) + Collect(rest, each)
  {
    assert ([first] + rest)[1..] == rest;
  }

  lemma LineByLine(a: seq<string>, b: seq<string>, showDebug: bool)
    ensures Displayed(a + b, showDebug) == Displayed(a, showDebug) + Displayed(b, showDebug)
    ensures MaskValues(a + b) == MaskValues(a) + MaskValues(b)
  {
    CollectConcat(a, b, line => Shown(line, showDebug));
    CollectConcat(a, b, Registered);
  }

  lemma RegisteredMeans(line: string)
    ensures forall v :: line == "::add-mask::" + v ==> Registered(line) == [v]
    ensures !HasPrefix(line, "::add-mask::") ==> Registered(line) == []
  {
    forall v | line == "::add-mask::" + v ensures Registered(line) == [v] {
      assert line[..12] == ADD_MASK && line[12..] == v;
    }
  }

  /**
    A further line is displayed, where it is not dropped, behind the lines before it, and registers
    what follows ::add-mask:: on it, behind the values registered before.
   */
  lemma OneMoreLine(lines: seq<string>, line: string, showDebug: bool)
    ensures Displayed(lines + [line], showDebug) ==
              Displayed(lines, showDebug) + match Render(line, showDebug) case None => [] case Some(r) => [r]
    ensures forall v :: line == "::add-mask::" + v ==> MaskValues(lines + [line]) == MaskValues(lines) + [v]
    ensures !HasPrefix(line, "::add-mask::") ==> MaskValues(lines + [line]) == MaskValues(lines)
  {
    LineByLine(lines, [line], showDebug);
    LoneLine(line, showDebug);
    RegisteredMeans(line);
  }

  /** A text of these lines is displayed line by line, and registers what its lines do. */
  lemma TextLineByLine(lines: seq<string>, showDebug: bool)
    requires lines != [] && forall k :: 0 <= k < |lines| ==> '\n' !in lines[k]
    ensures Display(Join(lines, '\n'), showDebug) == Join(Displayed(lines, showDebug), '\n')
    ensures Masks(Join(lines, '\n')) == MaskValues(lines)
  {
    SplitJoin(lines, '\n');
  }
}
