/** splitDockerOptions: the tokenizer of a container's `options:` string (internal/runner/dockeropts.go). */
module DockerOptions {
  import opened Outcomes
  import opened Text

  datatype Error = UnterminatedQuote

  /** The scanner's variables; quote is '\0' outside a quoted region. */
  datatype Scan = Scan(tokens: seq<string>, current: string, inToken: bool, quote: char)

  const NO_QUOTE := '\0'
  const START := Scan([], "", false, NO_QUOTE)

  predicate IsBlank(c: char) {
    c == ' ' || c == '\t' || c == '\n' || c == '\r'
  }

  predicate IsQuote(c: char) {
    c == '"' || c == '\''
  }

  function Flush(s: Scan): Scan {
    if s.inToken then s.(tokens := s.tokens + [s.current], current := "", inToken := false) else s
  }

  function Next(s: Scan, c: char): Scan {
    if s.quote != NO_QUOTE then
      if c == s.quote then s.(quote := NO_QUOTE) else s.(current := s.current + [c])
    else if IsBlank(c) then Flush(s)
    else if IsQuote(c) then s.(quote := c, inToken := true)
    else s.(inToken := true, current := s.current + [c])
  }

  function ScanAll(s: Scan, text: string): Scan
    decreases text
  {
    if text == "" then s else ScanAll(Next(s, text[0]), text[1..])
  }

  function Tokenize(text: string): Result<seq<string>, Error> {
    var end := ScanAll(START, text);
    if end.quote != NO_QUOTE then Err(UnterminatedQuote) else Ok(Flush(end).tokens)
  }

  method SplitDockerOptions(s: string) returns (r: Result<seq<string>, Error>)
    ensures r == Tokenize(s)
  {
    var tokens: seq<string> := [];
    var current := "";
    var inToken := false;
    var quote := NO_QUOTE;
    var i := 0;
    while i < |s|
      invariant 0 <= i <= |s|
      invariant ScanAll(START, s) == ScanAll(Scan(tokens, current, inToken, quote), s[i..])
    {
      var c := s[i];
      assert s[i..][0] == c && s[i..][1..] == s[i + 1..];
      if quote != NO_QUOTE {
        if c == quote {
          quote := NO_QUOTE;
        } else {
          current := current + [c];
        }
      } else if IsBlank(c) {
        if inToken {
          tokens, current, inToken := tokens + [current], "", false;
        }
      } else if IsQuote(c) {
        quote, inToken := c, true;
      } else {
        inToken, current := true, current + [c];
      }
      i := i + 1;
    }
    assert s[i..] == "";
    if quote != NO_QUOTE {
      return Err(UnterminatedQuote);
    }
    if inToken {
      tokens := tokens + [current];
    }
    return Ok(tokens);
  }

  // ----- joining inputs -----

  lemma {:induction false} ScanConcat(s: Scan, a: string, b: string)
    ensures ScanAll(s, a + b) == ScanAll(ScanAll(s, a), b)
    decreases a
  {
    if a == "" {
      assert a + b == b;
    } else {
      assert (a + b)[0] == a[0] && (a + b)[1..] == a[1..] + b;
      ScanConcat(Next(s, a[0]), a[1..], b);
    }
  }

  /** The same scan with other tokens already collected. */
  function After(tokens: seq<string>, s: Scan): Scan {
    s.(tokens := tokens + s.tokens)
  }

  lemma {:induction false} ScanAfter(tokens: seq<string>, s: Scan, text: string)
    ensures ScanAll(After(tokens, s), text) == After(tokens, ScanAll(s, text))
    decreases text
  {
    if text != "" {
      assert Next(After(tokens, s), text[0]) == After(tokens, Next(s, text[0]));
      ScanAfter(tokens, Next(s, text[0]), text[1..]);
    }
  }

  /** Outside a token nothing is half collected. */
  lemma {:induction false} IdleIsEmpty(s: Scan, text: string)
    requires !s.inToken ==> s.current == "" && s.quote == NO_QUOTE
    ensures var e := ScanAll(s, text); !e.inToken ==> e.current == "" && e.quote == NO_QUOTE
    decreases text
  {
    if text != "" {
      IdleIsEmpty(Next(s, text[0]), text[1..]);
    }
  }

  /** After an accepted string, a space starts afresh: splitting distributes over joining with a space. */
  lemma SplitDistributes(a: string, b: string)
    requires Tokenize(a).Ok?
    ensures Tokenize(a + " " + b).Ok? <==> Tokenize(b).Ok?
    ensures Tokenize(b).Ok? ==> Tokenize(a + " " + b) == Ok(Tokenize(a).value + Tokenize(b).value)
  {
    var ta := Tokenize(a).value;
    var ea := ScanAll(START, a);
    IdleIsEmpty(START, a);
    ScanConcat(START, a + " ", b);
    ScanConcat(START, a, " ");
    assert " "[1..] == "";
    assert ScanAll(ea, " ") == Next(ea, ' ') == Flush(ea);
    assert Flush(ea) == After(ta, START);
    ScanAfter(ta, START, b);
    var eb := ScanAll(START, b);
    assert ta + (eb.tokens + [eb.current]) == ta + eb.tokens + [eb.current];
    assert (a + " ") + b == a + " " + b;
  }

  // ----- the right inverse -----

  /** One character in quotes of the other kind. */
  function QuoteChar(c: char): string {
    if c == '"' then ['\'', c, '\''] else ['"', c, '"']
  }

  function QuoteChars(tok: string): string {
    if tok == "" then "" else QuoteChar(tok[0]) + QuoteChars(tok[1..])
  }

  /** Writes any token, empty ones, blanks and both kinds of quote included. */
  function Quote(tok: string): string {
    "\"\"" + QuoteChars(tok)
  }

  lemma ScanQuoteChar(s: Scan, c: char)
    requires s.quote == NO_QUOTE
    ensures ScanAll(s, QuoteChar(c)) == s.(inToken := true, current := s.current + [c])
  {
    var q := QuoteChar(c);
    var open := Next(s, q[0]);
    assert open == s.(inToken := true, quote := q[0]);
    assert q[1..][1..] == [q[2]] && [q[2]][1..] == "";
    assert ScanAll(s, q) == ScanAll(open, q[1..]) == ScanAll(Next(open, c), [q[2]]) == Next(Next(open, c), q[2]);
  }

  lemma {:induction false} ScanQuoteChars(s: Scan, tok: string)
    requires s.quote == NO_QUOTE && s.inToken
    ensures ScanAll(s, QuoteChars(tok)) == s.(current := s.current + tok)
    decreases tok
  {
    if tok == "" {
      assert s.current + tok == s.current;
    } else {
      ScanConcat(s, QuoteChar(tok[0]), QuoteChars(tok[1..]));
      ScanQuoteChar(s, tok[0]);
      ScanQuoteChars(s.(current := s.current + [tok[0]]), tok[1..]);
      assert s.current + [tok[0]] + tok[1..] == s.current + tok;
    }
  }

  lemma QuotedToken(tok: string)
    ensures Tokenize(Quote(tok)) == Ok([tok])
  {
    var q := "\"\"";
    assert q[1..] == "\"" && q[1..][1..] == "";
    assert ScanAll(START, q) == Next(Next(START, '"'), '"') == Scan([], "", true, NO_QUOTE);
    ScanConcat(START, q, QuoteChars(tok));
    ScanQuoteChars(Scan([], "", true, NO_QUOTE), tok);
    assert "" + tok == tok;
    assert ScanAll(START, Quote(tok)) == Scan([], tok, true, NO_QUOTE);
    assert [] + [tok] == [tok];
  }

  function QuoteAll(tokens: seq<string>): seq<string> {
    if tokens == [] then [] else [Quote(tokens[0])] + QuoteAll(tokens[1..])
  }

  /** Every token sequence is written by some options string: splitting the joined quoted tokens returns them. */
  lemma {:induction false} SplitInvertsQuote(tokens: seq<string>)
    ensures Tokenize(Join(QuoteAll(tokens), ' ')) == Ok(tokens)
    decreases tokens
  {
    var quoted := QuoteAll(tokens);
    if tokens == [] {
      assert Tokenize("") == Ok([]);
    } else if |tokens| == 1 {
      QuotedToken(tokens[0]);
      assert QuoteAll(tokens[1..]) == [] by { assert tokens[1..] == []; }
      assert quoted == [Quote(tokens[0])] && tokens == [tokens[0]];
    } else {
      QuotedToken(tokens[0]);
      SplitInvertsQuote(tokens[1..]);
      assert quoted[1..] == QuoteAll(tokens[1..]);
      assert |quoted| > 1 by { assert QuoteAll(tokens[1..]) != []; }
      SplitDistributes(Quote(tokens[0]), Join(quoted[1..], ' '));
      assert [tokens[0]] + tokens[1..] == tokens;
    }
  }

  // ----- when splitting fails -----

  ghost predicate OpensQuote(text: string, i: nat) {
    && i < |text| && IsQuote(text[i]) && Tokenize(text[..i]).Ok? && text[i] !in text[i + 1..]
  }

  lemma {:induction false} InsideQuote(s: Scan, text: string)
    requires s.quote != NO_QUOTE && IsQuote(s.quote) && s.quote !in text
    ensures ScanAll(s, text).quote == s.quote
    decreases text
  {
    if text != "" {
      InsideQuote(Next(s, text[0]), text[1..]);
    }
  }

  lemma {:induction false} FindOpening(text: string) returns (i: nat)
    requires ScanAll(START, text).quote != NO_QUOTE
    ensures OpensQuote(text, i) && ScanAll(START, text).quote == text[i]
    decreases |text|
  {
    var n := |text| - 1;
    var head, c := text[..n], text[n];
    assert text == head + [c];
    ScanConcat(START, head, [c]);
    var e := ScanAll(START, head);
    assert [c][1..] == "";
    assert ScanAll(START, text) == Next(e, c);
    if e.quote == NO_QUOTE {
      i := n;
      assert text[..i] == head && text[i + 1..] == "";
    } else {
      i := FindOpening(head);
      assert text[..i] == head[..i] && text[i + 1..] == head[i + 1..] + [c];
    }
  }

  /** Splitting fails iff some quote, opened outside any quoted region, never occurs again. */
  lemma FailsIffQuoteUnclosed(text: string)
    ensures Tokenize(text).Err? <==> exists i: nat :: OpensQuote(text, i)
  {
    if Tokenize(text).Err? {
      var i := FindOpening(text);
    } else {
      forall i: nat ensures !OpensQuote(text, i) {
        if i < |text| {
          assert text == text[..i] + ([text[i]] + text[i + 1..]);
          ScanConcat(START, text[..i], [text[i]] + text[i + 1..]);
          var e := ScanAll(START, text[..i]);
          assert ([text[i]] + text[i + 1..])[1..] == text[i + 1..];
          if OpensQuote(text, i) {
            InsideQuote(Next(e, text[i]), text[i + 1..]);
          }
        }
      }
    }
  }
}
