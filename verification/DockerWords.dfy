/**
  What the tokens of an options string are, told from its quoted regions and blanks rather than from
  the scanner's state.
 */
module DockerWords {
  import opened Outcomes
  import opened Text
  import opened DockerOptions

  // ----- quoted regions -----

  /** The distance from an opening quote's successor to the quote that closes it. */
  function Closing(text: string): (r: Option<nat>)
    requires text != ""
    ensures r.Some? ==> r.value + 1 < |text|
  {
    Index(text[1..], [text[0]])
  }

  /** The text without its blanks outside quotes and without the quotes that delimit regions. */
  function Kept(text: string): string
    decreases |text|
  {
    if text == "" then ""
    else if IsQuote(text[0]) then
      var n := Closing(text);
      if n.None? then "" else text[1..n.value + 1] + Kept(text[n.value + 2..])
    else (if IsBlank(text[0]) then "" else [text[0]]) + Kept(text[1..])
  }

  /** Every quoted region is closed and no blank stands outside one. */
  predicate Solid(text: string)
    decreases |text|
  {
    text == "" ||
    if IsQuote(text[0]) then
      var n := Closing(text); n.Some? && Solid(text[n.value + 2..])
    else !IsBlank(text[0]) && Solid(text[1..])
  }

  predicate Plain(c: char) {
    c !in {' ', '\t', '\n', '\r', '"', '\''}
  }

  /** A word as it is usually written. */
  predicate Word(w: string) {
    w != "" && forall i :: 0 <= i < |w| ==> Plain(w[i])
  }

  predicate Blanks(gap: string) {
    forall i :: 0 <= i < |gap| ==> gap[i] in {' ', '\t', '\n', '\r'}
  }

  // ----- the scanner inside a region -----

  lemma {:induction false} QuotedBody(s: Scan, body: string)
    requires s.quote != NO_QUOTE && s.quote !in body
    ensures ScanAll(s, body) == s.(current := s.current + body)
    decreases body
  {
    if body == "" {
      assert s.current + body == s.current;
    } else {
      QuotedBody(Next(s, body[0]), body[1..]);
      assert s.current + [body[0]] + body[1..] == s.current + body;
    }
  }

  lemma ClosingSpec(text: string)
    requires text != "" && Closing(text).Some?
    ensures var n := Closing(text).value;
            && text[0] !in text[1..n + 1] && text[n + 1] == text[0]
            && text == [text[0]] + text[1..n + 1] + [text[0]] + text[n + 2..]
  {
    var q, n := text[0], Closing(text).value;
    IndexSpec(text[1..], [q]);
    assert text[1..][n..n + 1] == [q] && text[1..][n] == text[n + 1];
    if q in text[1..n + 1] {
      var i :| 0 <= i < n && text[1..n + 1][i] == q;
      assert text[1..][i..i + 1] == [q];
      assert OccursAt(text[1..], [q], i);
    }
  }

  lemma NoClosing(text: string)
    requires text != "" && Closing(text).None?
    ensures text[0] !in text[1..]
  {
    IndexSpec(text[1..], [text[0]]);
    if text[0] in text[1..] {
      var i :| 0 <= i < |text[1..]| && text[1..][i] == text[0];
      assert text[1..][i..i + 1] == [text[0]];
      assert OccursAt(text[1..], [text[0]], i);
    }
  }

  /** What a closed region holds. */
  function Body(text: string): string
    requires text != "" && Closing(text).Some?
  {
    text[1..Closing(text).value + 1]
  }

  /** What follows a closed region. */
  function Rest(text: string): (r: string)
    requires text != "" && Closing(text).Some?
    ensures |r| < |text|
  {
    text[Closing(text).value + 2..]
  }

  function Opened(s: Scan, body: string): Scan {
    s.(inToken := true, current := s.current + body)
  }

  /** A closed region adds its inside to the current token. */
  lemma Region(s: Scan, text: string)
    requires s.quote == NO_QUOTE && text != "" && IsQuote(text[0]) && Closing(text).Some?
    ensures ScanAll(s, text) == ScanAll(Opened(s, Body(text)), Rest(text))
  {
    ClosingSpec(text);
    RegionScanned(s, text[0], Body(text), Rest(text));
    FourParts([text[0]], Body(text), [text[0]], Rest(text));
  }

  lemma FourParts(a: string, b: string, c: string, d: string)
    ensures a + b + c + d == a + (b + (c + d))
  {
  }

  lemma RegionScanned(s: Scan, q: char, body: string, rest: string)
    requires s.quote == NO_QUOTE && IsQuote(q) && q !in body
    ensures ScanAll(s, [q] + (body + ([q] + rest))) == ScanAll(Opened(s, body), rest)
  {
    var open := Next(s, q);
    FirstScanned(s, q, body + ([q] + rest));
    ScanConcat(open, body, [q] + rest);
    QuotedBody(open, body);
    FirstScanned(open.(current := open.current + body), q, rest);
  }

  lemma FirstScanned(s: Scan, c: char, rest: string)
    ensures ScanAll(s, [c] + rest) == ScanAll(Next(s, c), rest)
  {
    assert ([c] + rest)[1..] == rest;
  }

  lemma ScanTurn(s: Scan, text: string)
    requires text != ""
    ensures ScanAll(s, text) == ScanAll(Next(s, text[0]), text[1..])
  {
  }

  lemma KeptTurn(text: string)
    requires text != "" && !IsQuote(text[0])
    ensures Kept(text) == (if IsBlank(text[0]) then "" else [text[0]]) + Kept(text[1..])
  {
  }

  lemma KeptRegion(text: string)
    requires text != "" && IsQuote(text[0]) && Closing(text).Some?
    ensures Kept(text) == Body(text) + Kept(Rest(text))
  {
  }

  // ----- one token -----

  function Grown(s: Scan, more: string, text: string): Scan {
    s.(inToken := s.inToken || text != "", current := s.current + more)
  }

  lemma {:induction false} SolidScan(s: Scan, text: string)
    requires s.quote == NO_QUOTE && Solid(text)
    ensures ScanAll(s, text) == Grown(s, Kept(text), text)
    decreases |text|
  {
    if text == "" {
      assert s.current + "" == s.current;
    } else if IsQuote(text[0]) {
      Region(s, text);
      SolidScan(Opened(s, Body(text)), Rest(text));
      KeptRegion(text);
      GrownTwice(s, text, Body(text), Kept(Rest(text)), Rest(text));
    } else {
      ScanTurn(s, text);
      SolidScan(Opened(s, [text[0]]), text[1..]);
      KeptTurn(text);
      GrownTwice(s, text, [text[0]], Kept(text[1..]), text[1..]);
    }
  }

  lemma GrownTwice(s: Scan, text: string, a: string, b: string, rest: string)
    requires text != ""
    ensures Grown(Opened(s, a), b, rest) == Grown(s, a + b, text)
  {
    assert s.current + a + b == s.current + (a + b);
  }

  /** Without a blank outside quotes there is one token: the text without its delimiting quotes. */
  lemma SolidIsOneToken(text: string)
    requires text != "" && Solid(text)
    ensures Tokenize(text) == Ok([Kept(text)])
  {
    SolidScan(START, text);
    assert "" + Kept(text) == Kept(text) && [] + [Kept(text)] == [Kept(text)];
  }

  lemma {:induction false} WordIsSolid(w: string)
    requires forall i :: 0 <= i < |w| ==> Plain(w[i])
    ensures Solid(w) && Kept(w) == w
  {
    if w != "" {
      assert Plain(w[0]);
      WordIsSolid(w[1..]);
      assert [w[0]] + w[1..] == w;
    }
  }

  lemma WordIsItself(w: string)
    requires Word(w)
    ensures Tokenize(w) == Ok([w])
  {
    WordIsSolid(w);
    SolidIsOneToken(w);
  }

  // ----- many tokens -----

  lemma BlankFlushes(s: Scan, c: char)
    requires s.quote == NO_QUOTE && IsBlank(c)
    ensures ScanAll(s, [c]) == Flush(s)
  {
    assert [c][1..] == "";
    assert ScanAll(s, [c]) == ScanAll(Next(s, c), "");
  }

  /** After an accepted text any blank starts afresh. */
  lemma BlankSeparates(a: string, c: char, b: string)
    requires Tokenize(a).Ok? && IsBlank(c)
    ensures Tokenize(a + [c] + b).Ok? <==> Tokenize(b).Ok?
    ensures Tokenize(b).Ok? ==> Tokenize(a + [c] + b) == Ok(Tokenize(a).value + Tokenize(b).value)
  {
    var ta := Tokenize(a).value;
    var ea := ScanAll(START, a);
    IdleIsEmpty(START, a);
    ScanConcat(START, a + [c], b);
    ScanConcat(START, a, [c]);
    BlankFlushes(ea, c);
    assert Flush(ea) == After(ta, START);
    ScanAfter(ta, START, b);
    var eb := ScanAll(START, b);
    assert ta + (eb.tokens + [eb.current]) == ta + eb.tokens + [eb.current];
  }

  lemma NothingTokenized()
    ensures Tokenize("") == Ok([])
  {
  }

  /** Blanks in front change nothing. */
  lemma {:induction false} LeadingBlanks(gap: string, b: string)
    requires Blanks(gap)
    ensures Tokenize(gap + b) == Tokenize(b)
    decreases gap
  {
    if gap == "" {
      assert gap + b == b;
    } else {
      LeadingBlanks(gap[1..], b);
      NothingTokenized();
      BlankSeparates("", gap[0], gap[1..] + b);
      assert "" + [gap[0]] + (gap[1..] + b) == gap + b;
      if Tokenize(b).Ok? {
        assert [] + Tokenize(b).value == Tokenize(b).value;
      }
    }
  }

  /** The words with a gap before each and one after the last. */
  function Spaced(words: seq<string>, gaps: seq<string>): string
    requires |gaps| == |words| + 1
  {
    if words == [] then gaps[0] else gaps[0] + words[0] + Spaced(words[1..], gaps[1..])
  }

  /** Gaps are made of blanks, and no two words touch. */
  predicate Gaps(words: seq<string>, gaps: seq<string>) {
    && |gaps| == |words| + 1
    && (forall i :: 0 <= i < |gaps| ==> Blanks(gaps[i]))
    && (forall i :: 1 <= i < |words| ==> gaps[i] != "")
  }

  lemma {:induction false} WordsAreTokens(words: seq<string>, gaps: seq<string>)
    requires Gaps(words, gaps) && forall i :: 0 <= i < |words| ==> Word(words[i])
    ensures Tokenize(Spaced(words, gaps)) == Ok(words)
    decreases |words|
  {
    if words == [] {
      LeadingBlanks(gaps[0], "");
      assert gaps[0] + "" == gaps[0];
      NothingTokenized();
    } else {
      WordsAreTokens(words[1..], gaps[1..]);
      FirstWord(words[0], Spaced(words[1..], gaps[1..]), words[1..]);
      LeadingBlanks(gaps[0], words[0] + Spaced(words[1..], gaps[1..]));
      assert gaps[0] + (words[0] + Spaced(words[1..], gaps[1..])) == Spaced(words, gaps);
      assert [words[0]] + words[1..] == words;
    }
  }

  /** A word in front of nothing, or of a text that begins with a blank, is the first token. */
  lemma FirstWord(w: string, rest: string, tokens: seq<string>)
    requires Word(w) && Tokenize(rest) == Ok(tokens) && (rest == "" || IsBlank(rest[0]))
    ensures Tokenize(w + rest) == Ok([w] + tokens)
  {
    WordIsItself(w);
    if rest == "" {
      NothingTokenized();
      assert w + rest == w && [w] + tokens == [w];
    } else {
      LeadingBlanks([rest[0]], rest[1..]);
      assert [rest[0]] + rest[1..] == rest;
      BlankSeparates(w, rest[0], rest[1..]);
      assert w + [rest[0]] + rest[1..] == w + rest;
    }
  }

  // ----- nothing is lost, nothing is added -----

  function Chars(tokens: seq<string>): string {
    if tokens == [] then "" else Chars(tokens[..|tokens| - 1]) + tokens[|tokens| - 1]
  }

  lemma FlushKeeps(s: Scan)
    requires !s.inToken ==> s.current == ""
    ensures Collected(Flush(s)) == Collected(s)
  {
    if s.inToken {
      assert (s.tokens + [s.current])[..|s.tokens|] == s.tokens;
    }
  }

  /** Everything collected so far. */
  function Collected(s: Scan): string {
    Chars(s.tokens) + s.current
  }

  lemma OpenedCollects(s: Scan, body: string, more: string)
    ensures Collected(Opened(s, body)) + more == Collected(s) + (body + more)
  {
    assert Chars(s.tokens) + (s.current + body) + more == Chars(s.tokens) + s.current + (body + more);
  }

  lemma {:induction false} ScanKeeps(s: Scan, text: string)
    requires s.quote == NO_QUOTE && (!s.inToken ==> s.current == "") && ScanAll(s, text).quote == NO_QUOTE
    ensures var e := ScanAll(s, text);
            (!e.inToken ==> e.current == "") && Collected(e) == Collected(s) + Kept(text)
    decreases |text|
  {
    if text == "" {
      assert Collected(s) + "" == Collected(s);
    } else if IsQuote(text[0]) {
      RegionClosed(s, text);
      Region(s, text);
      ScanKeeps(Opened(s, Body(text)), Rest(text));
      KeptRegion(text);
      OpenedCollects(s, Body(text), Kept(Rest(text)));
    } else {
      ScanTurn(s, text);
      KeptTurn(text);
      if IsBlank(text[0]) {
        FlushKeeps(s);
        ScanKeeps(Flush(s), text[1..]);
        assert "" + Kept(text[1..]) == Kept(text[1..]);
      } else {
        ScanKeeps(Opened(s, [text[0]]), text[1..]);
        OpenedCollects(s, [text[0]], Kept(text[1..]));
      }
    }
  }

  lemma RegionClosed(s: Scan, text: string)
    requires s.quote == NO_QUOTE && text != "" && IsQuote(text[0]) && ScanAll(s, text).quote == NO_QUOTE
    ensures Closing(text).Some?
  {
    if Closing(text).None? {
      NoClosing(text);
      InsideQuote(Next(s, text[0]), text[1..]);
    }
  }

  /**
    For every accepted text: the characters of its tokens, in order, are those of the text without
    its delimiting quotes and its blanks outside quotes.
   */
  lemma TokensKeepText(text: string)
    requires Tokenize(text).Ok?
    ensures Chars(Tokenize(text).value) == Kept(text)
  {
    ScanKeeps(START, text);
    FlushKeeps(ScanAll(START, text));
    assert Collected(START) + Kept(text) == Kept(text);
    var e := Flush(ScanAll(START, text));
    assert Collected(e) == Chars(e.tokens);
  }

  /** A text is accepted iff each of its quoted regions is closed. */
  predicate AllClosed(text: string)
    decreases |text|
  {
    text == "" ||
    if IsQuote(text[0]) then
      var n := Closing(text); n.Some? && AllClosed(text[n.value + 2..])
    else AllClosed(text[1..])
  }

  lemma {:induction false} ScanClosedIff(s: Scan, text: string)
    requires s.quote == NO_QUOTE
    ensures ScanAll(s, text).quote == NO_QUOTE <==> AllClosed(text)
    decreases |text|
  {
    if text != "" {
      if !IsQuote(text[0]) {
        ScanClosedIff(Next(s, text[0]), text[1..]);
      } else if Closing(text).Some? {
        Region(s, text);
        ScanClosedIff(Opened(s, Body(text)), Rest(text));
      } else if ScanAll(s, text).quote == NO_QUOTE {
        RegionClosed(s, text);
      }
    }
  }

  lemma AcceptedIff(text: string)
    ensures Tokenize(text).Ok? <==> AllClosed(text)
  {
    ScanClosedIff(START, text);
  }
}
