/**
  ParseKeyValueFile: the GITHUB_ENV / GITHUB_OUTPUT file format (internal/commands/files.go), and
  the bufio.Scanner line splitting beneath it. A character stands for a byte.
 */
module KeyValueFile {
  import opened Outcomes
  import opened Text

  type Entries = map<string, string>

  datatype Error = LineTooLong

  // ----- bufio.ScanLines -----

  /** A line this long, without its newline, fills the scanner's buffer. */
  const MAX_LINE: nat := 65536

  function DropCR(line: string): string {
    if line != "" && line[|line| - 1] == '\r' then line[..|line| - 1] else line
  }

  /** The raw lines of a file: a final newline ends the last one rather than starting another. */
  function RawLines(text: string): seq<string> {
    TrimEnd(Split(text, '\n'))
  }

  function TrimEnd(parts: seq<string>): seq<string>
    requires |parts| > 0
  {
    if parts[|parts| - 1] == "" then parts[..|parts| - 1] else parts
  }

  function DropCRs(raw: seq<string>): seq<string> {
    seq(|raw|, i requires 0 <= i < |raw| => DropCR(raw[i]))
  }

  function Lines(text: string): seq<string> {
    DropCRs(RawLines(text))
  }

  predicate AllShort(raw: seq<string>) {
    forall i :: 0 <= i < |raw| ==> |raw[i]| < MAX_LINE
  }

  predicate Scannable(text: string) {
    AllShort(RawLines(text))
  }

  // ----- the parser -----

  /** How many value lines precede the delimiter, or the end of the file. */
  function HeredocLength(lines: seq<string>, delim: string): (n: nat)
    ensures n <= |lines|
  {
    if lines == [] || lines[0] == delim then 0 else 1 + HeredocLength(lines[1..], delim)
  }

  datatype Item = Nothing | Heredoc(name: string, delim: string) | Plain(name: string, value: string)

  /** What a line starts. The heredoc test comes first, so a "<<" anywhere makes it a heredoc. */
  function Classify(line: string): Item {
    var heredoc := Index(line, "<<");
    var equals := Index(line, "=");
    if heredoc.Some? then Heredoc(line[..heredoc.value], line[heredoc.value + 2..])
    else if equals.Some? then Plain(line[..equals.value], line[equals.value + 1..])
    else Nothing
  }

  /** How many lines the entry at the head takes, a heredoc's closing line included. */
  function Taken(lines: seq<string>): (n: nat)
    requires lines != []
    ensures 1 <= n <= |lines|
  {
    match Classify(lines[0])
    case Heredoc(_, delim) =>
      var n := HeredocLength(lines[1..], delim);
      if n + 1 < |lines| then n + 2 else |lines|
    case _ => 1
  }

  /** The name and value of the entry at the head, if it is one. */
  function Binding(lines: seq<string>): Option<(string, string)>
    requires lines != []
  {
    match Classify(lines[0])
    case Nothing => None
    case Heredoc(name, delim) => Some((name, Join(lines[1..HeredocLength(lines[1..], delim) + 1], '\n')))
    case Plain(name, value) => Some((name, value))
  }

  function Bind(m: Entries, b: Option<(string, string)>): Entries {
    if b.None? then m else m[b.value.0 := b.value.1]
  }

  function Enter(m: Entries, lines: seq<string>): Entries
    requires lines != []
  {
    Bind(m, Binding(lines))
  }

  function ParseLines(m: Entries, lines: seq<string>): Entries
    decreases |lines|
  {
    if lines == [] then m else ParseLines(Enter(m, lines), lines[Taken(lines)..])
  }

  function Parse(text: string): Result<Entries, Error> {
    if Scannable(text) then Ok(ParseLines(map[], Lines(text))) else Err(LineTooLong)
  }

  /** stop is the first line from start on that is the delimiter, or the end of the file. */
  ghost predicate StopsAt(lines: seq<string>, start: nat, delim: string, stop: nat) {
    && start <= stop <= |lines|
    && (forall k :: start <= k < stop ==> lines[k] != delim)
    && (stop < |lines| ==> lines[stop] == delim)
  }

  /** That is where the count of value lines leads. */
  lemma {:induction false} HeredocStops(lines: seq<string>, start: nat, delim: string, stop: nat)
    requires StopsAt(lines, start, delim, stop)
    ensures stop == start + HeredocLength(lines[start..], delim)
    decreases stop - start
  {
    if start < stop {
      assert lines[start..][0] == lines[start] && lines[start..][1..] == lines[start + 1..];
      HeredocStops(lines, start + 1, delim, stop);
    }
  }

  /** The inner scanner loop: the value lines up to the delimiter, which is consumed, or to the end of the file. */
  method ReadHeredoc(lines: seq<string>, start: nat, delim: string) returns (value: string, next: nat)
    requires start <= |lines|
    ensures var stop := start + HeredocLength(lines[start..], delim);
            && StopsAt(lines, start, delim, stop)
            && value == Join(lines[start..stop], '\n')
            && next == if stop < |lines| then stop + 1 else |lines|
  {
    var valueLines: seq<string> := [];
    var i := start;
    while i < |lines|
      invariant start <= i <= |lines| && valueLines == lines[start..i]
      invariant forall k :: start <= k < i ==> lines[k] != delim
    {
      if lines[i] == delim {
        HeredocStops(lines, start, delim, i);
        return Join(valueLines, '\n'), i + 1;
      }
      valueLines := valueLines + [lines[i]];
      i := i + 1;
    }
    HeredocStops(lines, start, delim, |lines|);
    return Join(valueLines, '\n'), |lines|;
  }

  /** One turn of the scanner loop. */
  method ReadEntry(m: Entries, lines: seq<string>, i: nat) returns (m': Entries, next: nat)
    requires i < |lines|
    ensures m' == Enter(m, lines[i..]) && next == i + Taken(lines[i..])
  {
    ghost var here := lines[i..];
    assert here[0] == lines[i] && here[1..] == lines[i + 1..];
    if lines[i] == "" {
      assert Classify("") == Nothing;
      return m, i + 1;
    }
    match Classify(lines[i]) {
      case Nothing =>
        return m, i + 1;
      case Plain(name, value) =>
        return m[name := value], i + 1;
      case Heredoc(name, delim) =>
        ghost var n := HeredocLength(lines[i + 1..], delim);
        assert here[1..n + 1] == lines[i + 1..i + 1 + n];
        var value;
        value, next := ReadHeredoc(lines, i + 1, delim);
        return m[name := value], next;
    }
  }

  method ScanEntries(lines: seq<string>) returns (result: Entries)
    ensures result == ParseLines(map[], lines)
  {
    result := map[];
    var i := 0;
    while i < |lines|
      invariant 0 <= i <= |lines| && ParseLines(map[], lines) == ParseLines(result, lines[i..])
      decreases |lines| - i
    {
      result, i := ReadNext(result, lines, i);
    }
  }

  method ReadNext(m: Entries, lines: seq<string>, i: nat) returns (m': Entries, next: nat)
    requires i < |lines|
    ensures i < next <= |lines| && ParseLines(m, lines[i..]) == ParseLines(m', lines[next..])
  {
    m', next := ReadEntry(m, lines, i);
    ParseTurn(m, lines, i, m', next);
  }

  lemma ParseTurn(m: Entries, lines: seq<string>, i: nat, m': Entries, next: nat)
    requires i < |lines| && m' == Enter(m, lines[i..]) && next == i + Taken(lines[i..])
    ensures i < next <= |lines| && ParseLines(m, lines[i..]) == ParseLines(m', lines[next..])
  {
    ParseHead(m, lines[i..]);
    assert lines[i..][next - i..] == lines[next..];
  }

  lemma ParseHead(m: Entries, lines: seq<string>)
    requires lines != []
    ensures ParseLines(m, lines) == ParseLines(Enter(m, lines), lines[Taken(lines)..])
  {
  }

  method ParseKeyValueFile(text: string) returns (r: Result<Entries, Error>)
    ensures r == Parse(text)
  {
    if !Scannable(text) {
      return Err(LineTooLong);
    }
    var result := ScanEntries(Lines(text));
    return Ok(result);
  }

  // ----- files written one after another -----

  /** The text is empty or its last line is ended by a newline. */
  predicate EndsLine(text: string) {
    text == "" || text[|text| - 1] == '\n'
  }

  /** No heredoc runs into the end of the file. */
  predicate Closed(lines: seq<string>)
    decreases |lines|
  {
    lines == [] || (
      (Classify(lines[0]).Heredoc? ==> HeredocLength(lines[1..], Classify(lines[0]).delim) + 1 < |lines|)
      && Closed(lines[Taken(lines)..]))
  }

  lemma SplitEmpty()
    ensures Split("", '\n') == [""]
  {
  }

  lemma TrimConcat(pa: seq<string>, pb: seq<string>)
    requires |pb| > 0
    ensures TrimEnd(pa + pb) == pa + TrimEnd(pb)
  {
    assert (pa + pb)[..|pa + pb| - 1] == pa + pb[..|pb| - 1];
  }

  lemma RawLinesConcat(a: string, b: string)
    requires EndsLine(a)
    ensures RawLines(a + b) == RawLines(a) + RawLines(b)
  {
    SplitEmpty();
    if a == "" {
      assert a + b == b;
    } else {
      var a' := a[..|a| - 1];
      SplitConcat(a', "", '\n');
      SplitConcat(a', b, '\n');
      assert a == a' + ['\n'] + "" && a + b == a' + ['\n'] + b;
      TrimConcat(Split(a', '\n'), [""]);
      TrimConcat(Split(a', '\n'), Split(b, '\n'));
    }
  }

  lemma LinesConcat(a: string, b: string)
    requires EndsLine(a)
    ensures Lines(a + b) == Lines(a) + Lines(b)
    ensures Scannable(a + b) <==> Scannable(a) && Scannable(b)
  {
    RawLinesConcat(a, b);
    PiecewiseLines(RawLines(a), RawLines(b));
  }

  lemma PiecewiseLines(ra: seq<string>, rb: seq<string>)
    ensures DropCRs(ra + rb) == DropCRs(ra) + DropCRs(rb)
    ensures AllShort(ra + rb) <==> AllShort(ra) && AllShort(rb)
  {
    assert forall i :: 0 <= i < |ra| ==> (ra + rb)[i] == ra[i];
    assert forall i :: 0 <= i < |rb| ==> (ra + rb)[|ra| + i] == rb[i];
    if AllShort(ra + rb) {
      forall i | 0 <= i < |rb| ensures |rb[i]| < MAX_LINE {
        assert (ra + rb)[|ra| + i] == rb[i];
      }
    }
  }

  lemma {:induction false} HeredocPrefix(a: seq<string>, b: seq<string>, delim: string)
    requires HeredocLength(a, delim) < |a|
    ensures HeredocLength(a + b, delim) == HeredocLength(a, delim)
    decreases |a|
  {
    if a[0] != delim {
      HeredocPrefix(a[1..], b, delim);
      assert (a + b)[1..] == a[1..] + b;
    }
  }

  lemma HeredocBody(a: seq<string>, b: seq<string>, delim: string)
    requires a != [] && HeredocLength(a[1..], delim) + 1 < |a|
    ensures HeredocLength((a + b)[1..], delim) == HeredocLength(a[1..], delim)
    ensures var n := HeredocLength(a[1..], delim); (a + b)[1..n + 1] == a[1..n + 1]
  {
    assert (a + b)[1..] == a[1..] + b;
    HeredocPrefix(a[1..], b, delim);
  }

  lemma EnterPrefix(a: seq<string>, b: seq<string>)
    requires a != [] && Closed(a)
    ensures Taken(a + b) == Taken(a) && Binding(a + b) == Binding(a)
  {
    assert (a + b)[0] == a[0];
    if Classify(a[0]).Heredoc? {
      HeredocBody(a, b, Classify(a[0]).delim);
    }
  }

  lemma {:induction false} ParseConcat(m: Entries, a: seq<string>, b: seq<string>)
    requires Closed(a)
    ensures ParseLines(m, a + b) == ParseLines(ParseLines(m, a), b)
    decreases |a|
  {
    if a == [] {
      assert a + b == b;
    } else {
      EnterPrefix(a, b);
      var n := Taken(a);
      assert (a + b)[n..] == a[n..] + b;
      ParseConcat(Enter(m, a), a[n..], b);
    }
  }

  lemma EnterOverlays(m: Entries, lines: seq<string>)
    requires lines != []
    ensures Enter(m, lines) == m + Enter(map[], lines)
  {
    BindOverlays(m, Binding(lines));
  }

  lemma BindOverlays(m: Entries, b: Option<(string, string)>)
    ensures Bind(m, b) == m + Bind(map[], b)
  {
  }

  lemma {:induction false} ParseOverlays(m: Entries, lines: seq<string>)
    ensures ParseLines(m, lines) == m + ParseLines(map[], lines)
    decreases |lines|
  {
    if lines != [] {
      var rest := lines[Taken(lines)..];
      var e := Enter(map[], lines);
      ParseOverlays(Enter(m, lines), rest);
      ParseOverlays(e, rest);
      EnterOverlays(m, lines);
      OverlayAssociative(m, e, ParseLines(map[], rest));
    }
  }

  lemma OverlayAssociative(a: Entries, b: Entries, c: Entries)
    ensures (a + b) + c == a + (b + c)
  {
  }

  /** Parsing f1 followed by f2 overlays the two parses, when f1 ends with a complete entry. */
  lemma ParseAppended(f1: string, f2: string)
    requires EndsLine(f1) && Closed(Lines(f1))
    ensures Parse(f1 + f2).Ok? <==> Parse(f1).Ok? && Parse(f2).Ok?
    ensures Parse(f1 + f2).Ok? ==> Parse(f1 + f2) == Ok(Parse(f1).value + Parse(f2).value)
  {
    LinesConcat(f1, f2);
    ParseConcat(map[], Lines(f1), Lines(f2));
    ParseOverlays(ParseLines(map[], Lines(f1)), Lines(f2));
  }

  // ----- writing and reading back -----

  datatype Entry = Multi(name: string, delim: string, value: string) | Single(name: string, value: string)

  function Head(e: Entry): string {
    match e
    case Multi(name, delim, _) => name + "<<" + delim
    case Single(name, value) => name + "=" + value
  }

  /** The lines of an entry, without their newlines. */
  function EntryLines(e: Entry): seq<string> {
    [Head(e)] + if e.Multi? then Split(e.value, '\n') + [e.delim] else []
  }

  function Render(e: Entry): string {
    Head(e) + "\n" + if e.Multi? then e.value + "\n" + e.delim + "\n" else ""
  }

  function RenderAll(es: seq<Entry>): string {
    if es == [] then "" else Render(es[0]) + RenderAll(es[1..])
  }

  /** No newline inside, no carriage return at the end, and short enough for the scanner. */
  predicate PlainLine(line: string) {
    '\n' !in line && (line == "" || line[|line| - 1] != '\r') && |line| < 65536
  }

  ghost predicate Writable(e: Entry) {
    && PlainLine(Head(e))
    && match e
       case Multi(name, delim, value) =>
         && (forall i: nat :: i < |name| ==> !OccursAt(Head(e), "<<", i))
         && PlainLine(delim)
         && (forall i :: 0 <= i < |Split(value, '\n')| ==>
           PlainLine(Split(value, '\n')[i]) && Split(value, '\n')[i] != delim)
       case Single(name, value) => '=' !in name && !Contains(Head(e), "<<")
  }

  /** The last entry of a name wins. */
  function LastWins(es: seq<Entry>): Entries {
    if es == [] then map[] else map[es[0].name := es[0].value] + LastWins(es[1..])
  }

  lemma RawOfRendered(e: Entry)
    requires Writable(e)
    ensures RawLines(Render(e)) == EntryLines(e) && EndsLine(Render(e))
  {
    SplitEmpty();
    if e.Multi? {
      var tail := e.delim + "\n";
      SplitFirst(e.delim, "", '\n');
      assert e.delim + ['\n'] + "" == tail;
      SplitConcat(e.value, tail, '\n');
      var body := e.value + ['\n'] + tail;
      SplitFirst(Head(e), body, '\n');
      assert Render(e) == Head(e) + ['\n'] + body;
      assert Split(Render(e), '\n') == EntryLines(e) + [""];
    } else {
      SplitFirst(Head(e), "", '\n');
      assert Render(e) == Head(e) + ['\n'] + "";
      assert Split(Render(e), '\n') == EntryLines(e) + [""];
    }
  }

  lemma EntryPlain(e: Entry)
    requires Writable(e)
    ensures forall i :: 0 <= i < |EntryLines(e)| ==> PlainLine(EntryLines(e)[i])
  {
  }

  lemma LinesOfRendered(e: Entry)
    requires Writable(e)
    ensures Lines(Render(e)) == EntryLines(e) && Scannable(Render(e)) && EndsLine(Render(e))
  {
    RawOfRendered(e);
    EntryPlain(e);
    assert forall i :: 0 <= i < |EntryLines(e)| ==> DropCR(EntryLines(e)[i]) == EntryLines(e)[i];
  }

  lemma HeadClassified(e: Entry)
    requires Writable(e)
    ensures Classify(Head(e)) == if e.Multi? then Heredoc(e.name, e.delim) else Plain(e.name, e.value)
  {
    var h := Head(e);
    var k := |e.name|;
    IndexSpec(h, "<<");
    IndexSpec(h, "=");
    if e.Multi? {
      assert h[k..k + 2] == "<<" && h[..k] == e.name && h[k + 2..] == e.delim;
      assert OccursAt(h, "<<", k);
      assert Index(h, "<<") == Some(k);
    } else {
      assert h[k..k + 1] == "=" && h[..k] == e.name && h[k + 1..] == e.value;
      assert OccursAt(h, "=", k);
      forall i: nat | i < k ensures !OccursAt(h, "=", i) {
        assert h[i..i + 1] == [e.name[i]];
      }
      assert Index(h, "=") == Some(k);
      assert Index(h, "<<") == None;
    }
  }

  lemma {:induction false} HeredocReaches(body: seq<string>, delim: string)
    requires forall i :: 0 <= i < |body| ==> body[i] != delim
    ensures HeredocLength(body + [delim], delim) == |body|
    decreases |body|
  {
    if body != [] {
      HeredocReaches(body[1..], delim);
      assert (body + [delim])[1..] == body[1..] + [delim];
    }
  }

  lemma OneEntry(m: Entries, lines: seq<string>)
    requires lines != [] && Taken(lines) == |lines|
    ensures ParseLines(m, lines) == Enter(m, lines)
  {
    assert lines[Taken(lines)..] == [];
  }

  lemma EntryShape(e: Entry)
    requires Writable(e)
    ensures Taken(EntryLines(e)) == |EntryLines(e)| && Binding(EntryLines(e)) == Some((e.name, e.value))
    ensures e.Multi? ==> HeredocLength(EntryLines(e)[1..], e.delim) + 1 < |EntryLines(e)|
  {
    HeadClassified(e);
    if e.Multi? {
      BodyShape(e);
    }
  }

  lemma BodyShape(e: Entry)
    requires Writable(e) && e.Multi?
    ensures var lines := EntryLines(e);
            var n := HeredocLength(lines[1..], e.delim);
            lines[0] == Head(e) && n + 2 == |lines| && Join(lines[1..n + 1], '\n') == e.value
  {
    var lines, body := EntryLines(e), Split(e.value, '\n');
    assert lines[1..] == body + [e.delim];
    HeredocReaches(body, e.delim);
    assert lines[1..|body| + 1] == body;
    JoinSplit(e.value, '\n');
  }

  lemma EntryParsed(m: Entries, e: Entry)
    requires Writable(e)
    ensures ParseLines(m, EntryLines(e)) == m[e.name := e.value] && Closed(EntryLines(e))
  {
    EntryShape(e);
    HeadClassified(e);
    OneEntry(m, EntryLines(e));
    assert EntryLines(e)[|EntryLines(e)|..] == [];
  }

  /** Reading back what was written gives the last value of every name. */
  lemma {:induction false} ParseInvertsRender(es: seq<Entry>)
    requires forall i :: 0 <= i < |es| ==> Writable(es[i])
    ensures Parse(RenderAll(es)) == Ok(LastWins(es))
    decreases es
  {
    if es == [] {
      SplitEmpty();
      assert Lines("") == [];
    } else {
      LinesOfRendered(es[0]);
      EntryParsed(map[], es[0]);
      ParseInvertsRender(es[1..]);
      ParseAppended(Render(es[0]), RenderAll(es[1..]));
    }
  }

  // ----- what the lines of a file come to, entry by entry -----

  /** name is what stands before the first "<<" of the line, delim what stands behind it. */
  ghost predicate OpensHeredoc(line: string, name: string, delim: string) {
    line == name + "<<" + delim && forall i: nat :: i < |name| ==> !OccursAt(line, "<<", i)
  }

  ghost predicate Assigns(line: string, name: string, value: string) {
    line == name + "=" + value && '=' !in name && !Contains(line, "<<")
  }

  lemma HeredocClassified(line: string, name: string, delim: string)
    requires OpensHeredoc(line, name, delim)
    ensures Classify(line) == Heredoc(name, delim)
  {
    var k := |name|;
    IndexSpec(line, "<<");
    assert line[k..k + 2] == "<<" && line[..k] == name && line[k + 2..] == delim;
    assert OccursAt(line, "<<", k);
  }

  lemma AssignmentClassified(line: string, name: string, value: string)
    requires Assigns(line, name, value)
    ensures Classify(line) == Plain(name, value)
  {
    var k := |name|;
    IndexSpec(line, "<<");
    IndexSpec(line, "=");
    assert line[k..k + 1] == "=" && line[..k] == name && line[k + 1..] == value;
    assert OccursAt(line, "=", k);
    forall j: nat | j < k ensures !OccursAt(line, "=", j) {
      assert line[j..j + 1] == [name[j]];
    }
  }

  /** A heredoc closed by its delimiter binds the lines in between. */
  lemma HeredocParsed(m: Entries, line: string, name: string, delim: string, body: seq<string>, rest: seq<string>)
    requires OpensHeredoc(line, name, delim) && delim !in body
    ensures ParseLines(m, [line] + body + [delim] + rest) == ParseLines(m[name := Join(body, '\n')], rest)
  {
    var lines := [line] + body + [delim] + rest;
    HeredocClassified(line, name, delim);
    StopsBehind(lines, body, delim);
    ParseHead(m, lines);
    assert lines[1..|body| + 1] == body && lines[|body| + 2..] == rest;
  }

  lemma StopsBehind(lines: seq<string>, body: seq<string>, delim: string)
    requires |lines| >= |body| + 2 && lines[1..|body| + 1] == body && lines[|body| + 1] == delim && delim !in body
    ensures HeredocLength(lines[1..], delim) == |body|
  {
    forall k | 1 <= k < |body| + 1 ensures lines[k] != delim {
      assert lines[k] == lines[1..|body| + 1][k - 1];
    }
    HeredocStops(lines, 1, delim, |body| + 1);
  }

  /** A heredoc that is never closed binds everything to the end of the file. */
  lemma UnclosedParsed(m: Entries, line: string, name: string, delim: string, body: seq<string>)
    requires OpensHeredoc(line, name, delim) && delim !in body
    ensures ParseLines(m, [line] + body) == m[name := Join(body, '\n')]
  {
    var lines := [line] + body;
    HeredocClassified(line, name, delim);
    assert lines[1..] == body;
    HeredocStops(lines, 1, delim, |lines|);
    ParseHead(m, lines);
    assert lines[1..|body| + 1] == body;
    assert lines[Taken(lines)..] == [];
  }

  /** An assignment binds what stands behind its first equals sign. */
  lemma AssignmentParsed(m: Entries, line: string, name: string, value: string, rest: seq<string>)
    requires Assigns(line, name, value)
    ensures ParseLines(m, [line] + rest) == ParseLines(m[name := value], rest)
  {
    AssignmentClassified(line, name, value);
    ParseHead(m, [line] + rest);
    assert ([line] + rest)[1..] == rest;
  }

  lemma NothingClassified(line: string)
    requires '=' !in line && !Contains(line, "<<")
    ensures Classify(line) == Nothing
  {
    IndexSpec(line, "<<");
    IndexSpec(line, "=");
    forall i: nat ensures !OccursAt(line, "=", i) {
      if i < |line| {
        assert line[i..i + 1] == [line[i]];
      }
    }
  }

  /** A line with neither "<<" nor "=" is passed over. */
  lemma OtherLineIgnored(m: Entries, line: string, rest: seq<string>)
    requires '=' !in line && !Contains(line, "<<")
    ensures ParseLines(m, [line] + rest) == ParseLines(m, rest)
  {
    NothingClassified(line);
    ParseHead(m, [line] + rest);
    assert ([line] + rest)[1..] == rest;
  }

  // ----- what the scanner makes of a text -----

  /** Parsing fails iff some line, its carriage return included, takes 65536 characters or more. */
  lemma FailsIffLongLine(text: string)
    ensures Parse(text).Err? <==> exists i :: 0 <= i < |Split(text, '\n')| && |Split(text, '\n')[i]| >= 65536
  {
    var parts := Split(text, '\n');
    TrimKeepsLong(parts);
    if !AllShort(RawLines(text)) {
      var i :| 0 <= i < |parts| && !(|parts[i]| < 65536);
      assert |Split(text, '\n')[i]| >= 65536;
    }
  }

  /** Trimming takes away at most an empty part. */
  lemma TrimKeepsLong(parts: seq<string>)
    requires |parts| > 0
    ensures AllShort(TrimEnd(parts)) <==> forall i :: 0 <= i < |parts| ==> |parts[i]| < 65536
  {
    var raw := TrimEnd(parts);
    assert forall i :: 0 <= i < |raw| ==> raw[i] == parts[i];
    if AllShort(raw) {
      forall i | 0 <= i < |parts| ensures |parts[i]| < 65536 {
        if i < |raw| {
          assert raw[i] == parts[i];
        }
      }
    }
  }

  /** The same text with its lines ended the other way. */
  function CRLF(text: string): string {
    if text == "" then "" else (if text[0] == '\n' then "\r\n" else [text[0]]) + CRLF(text[1..])
  }

  /** Every part but the last with a carriage return behind it. */
  function Returned(parts: seq<string>): (r: seq<string>)
    ensures |r| == |parts|
  {
    seq(|parts|, i requires 0 <= i < |parts| => if i < |parts| - 1 then parts[i] + "\r" else parts[i])
  }

  lemma {:induction false} SplitCRLF(text: string)
    ensures Split(CRLF(text), '\n') == Returned(Split(text, '\n'))
  {
    if text != "" {
      SplitCRLF(text[1..]);
      if text[0] == '\n' {
        SplitReturn(CRLF(text[1..]));
        ReturnedNewline(Split(text[1..], '\n'));
        assert CRLF(text) == "\r\n" + CRLF(text[1..]);
      } else {
        assert CRLF(text)[1..] == CRLF(text[1..]);
        ReturnedFirst(text[0], Split(text[1..], '\n'));
      }
    }
  }

  lemma SplitReturn(t: string)
    ensures Split("\r\n" + t, '\n') == ["\r"] + Split(t, '\n')
  {
    SplitFirst("\r", t, '\n');
    assert "\r" + ['\n'] + t == "\r\n" + t;
  }

  lemma ReturnedNewline(parts: seq<string>)
    requires |parts| > 0
    ensures Returned([""] + parts) == ["\r"] + Returned(parts)
  {
    assert "" + "\r" == "\r";
  }

  lemma ReturnedFirst(c: char, parts: seq<string>)
    requires |parts| > 0 && c != '\n'
    ensures Consume(c, Returned(parts), '\n') == Returned(Consume(c, parts, '\n'))
  {
    var longer := Consume(c, parts, '\n');
    assert longer[0] == [c] + parts[0] && forall i :: 1 <= i < |parts| ==> longer[i] == parts[i];
    ReturnedAhead(c, parts, longer);
  }

  lemma ReturnedAhead(c: char, parts: seq<string>, longer: seq<string>)
    requires |parts| > 0 && |longer| == |parts| && longer[0] == [c] + parts[0]
    requires forall i :: 1 <= i < |parts| ==> longer[i] == parts[i]
    ensures Returned(longer) == [[c] + Returned(parts)[0]] + Returned(parts)[1..]
  {
    var a, b := Returned(longer), [[c] + Returned(parts)[0]] + Returned(parts)[1..];
    assert [c] + parts[0] + "\r" == [c] + (parts[0] + "\r");
    assert a[0] == b[0];
    forall i | 1 <= i < |parts| ensures a[i] == b[i] {
      assert b[i] == Returned(parts)[i];
    }
  }

  /** Short enough to take a carriage return, and not ending in one yet. */
  predicate Returnable(part: string) {
    |part| < 65535 && (part == "" || part[|part| - 1] != '\r')
  }

  lemma ReturnDropped(part: string)
    requires Returnable(part)
    ensures DropCR(part + "\r") == part && DropCR(part) == part
  {
    assert (part + "\r")[..|part|] == part;
  }

  lemma ReturnedRead(parts: seq<string>)
    requires |parts| > 0 && forall i :: 0 <= i < |parts| ==> Returnable(parts[i])
    ensures DropCRs(TrimEnd(Returned(parts))) == DropCRs(TrimEnd(parts))
    ensures AllShort(TrimEnd(Returned(parts))) && AllShort(TrimEnd(parts))
  {
    var a, b := TrimEnd(Returned(parts)), TrimEnd(parts);
    assert |a| == |b|;
    forall i | 0 <= i < |a| ensures DropCR(a[i]) == DropCR(b[i]) && |a[i]| < MAX_LINE && |b[i]| < MAX_LINE {
      assert a[i] == Returned(parts)[i] && b[i] == parts[i];
      ReturnDropped(parts[i]);
    }
  }

  /** Lines ended by a carriage return and a newline read the same as lines ended by a newline. */
  lemma CRLFReadsSame(text: string)
    requires forall i :: 0 <= i < |Split(text, '\n')| ==> Returnable(Split(text, '\n')[i])
    ensures Parse(CRLF(text)) == Parse(text)
  {
    SplitCRLF(text);
    ReturnedRead(Split(text, '\n'));
  }
}
