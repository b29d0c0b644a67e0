/**
 * What `echo` prints for the lines with double quotes and backslashes that its
 * tests exercise. Each general lemma states the parts a line tokenizes into and
 * the text `echo` writes for them.
 */
module EchoEscapeExamples {
  import opened GoStrings
  import opened Lexer
  import opened LexerProperties
  import opened Consumers
  import opened EchoExamples

  /** A double-quoted segment. */
  function DoubleQuote(w: string): string {
    "\"" + w + "\""
  }

  /** Folding from the start over `x + y`, when `x` leads to `s` and `y` takes `s` to `t`. */
  lemma RunThen(x: string, s: LexState, y: string, t: LexState)
    requires Run(Init(), x) == s && Run(s, y) == t
    ensures Run(Init(), x + y) == t
  {
    RunAppend(Init(), x, y);
  }

  /** The state after `echo ` and one double-quoted segment without escapes. */
  lemma EchoDoubleQuoteRun(a: string)
    requires '"' !in a && '\\' !in a
    ensures Run(Init(), "echo " + DoubleQuote(a)) == Init().(parts := [Word("echo"), DoubleQuoted(a)])
  {
    var s0 := Init().(parts := [Word("echo")]);
    EchoWordRun();
    DoubleQuotedSegment(s0, a);
    assert "" + a == a;
    RunThen("echo ", s0, DoubleQuote(a), Init().(parts := [Word("echo"), DoubleQuoted(a)]));
  }

  /** `echo "a"`: one double-quoted part, printed as it stands. */
  lemma EchoDoubleQuoted(a: string)
    requires '"' !in a && '\\' !in a
    ensures Tokenize("echo " + DoubleQuote(a)) == [Word("echo").(isCommand := true), DoubleQuoted(a)]
    ensures EchoText(Tokenize("echo " + DoubleQuote(a))) == a + "\n"
  {
    EchoDoubleQuoteRun(a);
    var parts := [Word("echo").(isCommand := true), DoubleQuoted(a)];
    assert Rendered(parts, 2) == "";
    assert Rendered(parts, 1) == a + "" + "";
  }

  /**
   * After any line prefix that leaves the buffer empty outside quotes and does
   * not end with a separator, two spaces and a double-quoted segment add a
   * separator and a double-quoted part.
   */
  lemma SpacedDoubleQuote(x: string, s: LexState, w: string)
    requires Run(Init(), x) == s && Unquoted(s) && s.token == "" && !EndsWithSeparator(s.parts)
    requires '"' !in w && '\\' !in w
    ensures Run(Init(), x + "  " + DoubleQuote(w)) == s.(parts := s.parts + [Separator(), DoubleQuoted(w)])
  {
    var t := s.(parts := s.parts + [Separator()]);
    assert Run(Init(), x + "  ") == t by {
      TwoSpaces(s);
      RunThen(x, s, "  ", t);
    }
    assert Run(t, DoubleQuote(w)) == s.(parts := s.parts + [Separator(), DoubleQuoted(w)]) by {
      DoubleQuotedSegment(t, w);
      assert "" + w == w;
      assert t.parts + [DoubleQuoted(w)] == s.parts + [Separator(), DoubleQuoted(w)];
    }
    RunThen(x + "  ", t, DoubleQuote(w), s.(parts := s.parts + [Separator(), DoubleQuoted(w)]));
  }

  /** A double-quoted segment right after another adds one more double-quoted part. */
  lemma AdjacentDoubleQuote(x: string, s: LexState, w: string)
    requires Run(Init(), x) == s && Unquoted(s) && s.token == ""
    requires '"' !in w && '\\' !in w
    ensures Run(Init(), x + DoubleQuote(w)) == s.(parts := s.parts + [DoubleQuoted(w)])
  {
    DoubleQuotedSegment(s, w);
    assert "" + w == w;
    RunThen(x, s, DoubleQuote(w), s.(parts := s.parts + [DoubleQuoted(w)]));
  }

  /** The state after `echo "a"  "b"  "c"`. */
  lemma SpacedDoubleQuotesRun(a: string, b: string, c: string)
    requires '"' !in a && '\\' !in a && '"' !in b && '\\' !in b && '"' !in c && '\\' !in c
    ensures Run(Init(), "echo " + DoubleQuote(a) + "  " + DoubleQuote(b) + "  " + DoubleQuote(c)) ==
      Init().(parts := [Word("echo"), DoubleQuoted(a), Separator(), DoubleQuoted(b), Separator(), DoubleQuoted(c)])
  {
    var s1 := Init().(parts := [Word("echo"), DoubleQuoted(a)]);
    var s3 := s1.(parts := s1.parts + [Separator(), DoubleQuoted(b)]);
    var x1 := "echo " + DoubleQuote(a);
    EchoDoubleQuoteRun(a);
    SpacedDoubleQuote(x1, s1, b);
    SpacedDoubleQuote(x1 + "  " + DoubleQuote(b), s3, c);
  }

  /**
   * `echo "a"  "b"  "c"`: each run of spaces between the quoted segments is one
   * separator part and prints as one space.
   */
  lemma EchoSpacedDoubleQuotes(a: string, b: string, c: string)
    requires '"' !in a && '\\' !in a && '"' !in b && '\\' !in b && '"' !in c && '\\' !in c
    ensures Tokenize("echo " + DoubleQuote(a) + "  " + DoubleQuote(b) + "  " + DoubleQuote(c)) ==
      [Word("echo").(isCommand := true), DoubleQuoted(a), Separator(), DoubleQuoted(b), Separator(), DoubleQuoted(c)]
    ensures EchoText(Tokenize("echo " + DoubleQuote(a) + "  " + DoubleQuote(b) + "  " + DoubleQuote(c))) ==
      a + " " + b + " " + c + "\n"
  {
    var raw := "echo " + DoubleQuote(a) + "  " + DoubleQuote(b) + "  " + DoubleQuote(c);
    var parts := [Word("echo").(isCommand := true), DoubleQuoted(a), Separator(), DoubleQuoted(b), Separator(), DoubleQuoted(c)];
    assert Tokenize(raw) == parts by {
      SpacedDoubleQuotesRun(a, b, c);
    }
    RenderSpacedDoubleQuotes(parts, a, b, c);
  }

  /** The rendering half of `EchoSpacedDoubleQuotes`. */
  lemma RenderSpacedDoubleQuotes(parts: seq<Part>, a: string, b: string, c: string)
    requires parts == [Word("echo").(isCommand := true), DoubleQuoted(a), Separator(), DoubleQuoted(b), Separator(), DoubleQuoted(c)]
    ensures EchoText(parts) == a + " " + b + " " + c + "\n"
  {
    assert Rendered(parts, 6) == "";
    assert Rendered(parts, 5) == c + "" + "";
    assert Rendered(parts, 4) == " " + "" + c;
    assert Rendered(parts, 3) == b + "" + (" " + c);
    assert Rendered(parts, 2) == " " + "" + (b + " " + c);
    assert Rendered(parts, 1) == a + "" + (" " + b + " " + c);
  }

  /** The state after `echo "a"  "b""c"`. */
  lemma SpacedThenAdjacentDoubleQuotesRun(a: string, b: string, c: string)
    requires '"' !in a && '\\' !in a && '"' !in b && '\\' !in b && '"' !in c && '\\' !in c
    ensures Run(Init(), "echo " + DoubleQuote(a) + "  " + DoubleQuote(b) + DoubleQuote(c)) ==
      Init().(parts := [Word("echo"), DoubleQuoted(a), Separator(), DoubleQuoted(b), DoubleQuoted(c)])
  {
    var s1 := Init().(parts := [Word("echo"), DoubleQuoted(a)]);
    var s3 := s1.(parts := s1.parts + [Separator(), DoubleQuoted(b)]);
    var x1 := "echo " + DoubleQuote(a);
    EchoDoubleQuoteRun(a);
    SpacedDoubleQuote(x1, s1, b);
    AdjacentDoubleQuote(x1 + "  " + DoubleQuote(b), s3, c);
  }

  /**
   * `echo "a"  "b""c"`: spaces inside a double-quoted segment are kept, and two
   * segments with nothing between them print as one word.
   */
  lemma EchoSpacedThenAdjacentDoubleQuotes(a: string, b: string, c: string)
    requires '"' !in a && '\\' !in a && '"' !in b && '\\' !in b && '"' !in c && '\\' !in c
    ensures Tokenize("echo " + DoubleQuote(a) + "  " + DoubleQuote(b) + DoubleQuote(c)) ==
      [Word("echo").(isCommand := true), DoubleQuoted(a), Separator(), DoubleQuoted(b), DoubleQuoted(c)]
    ensures EchoText(Tokenize("echo " + DoubleQuote(a) + "  " + DoubleQuote(b) + DoubleQuote(c))) ==
      a + " " + b + c + "\n"
  {
    var raw := "echo " + DoubleQuote(a) + "  " + DoubleQuote(b) + DoubleQuote(c);
    var parts := [Word("echo").(isCommand := true), DoubleQuoted(a), Separator(), DoubleQuoted(b), DoubleQuoted(c)];
    assert Tokenize(raw) == parts by {
      SpacedThenAdjacentDoubleQuotesRun(a, b, c);
    }
    RenderSpacedThenAdjacentDoubleQuotes(parts, a, b, c);
  }

  /** The rendering half of `EchoSpacedThenAdjacentDoubleQuotes`. */
  lemma RenderSpacedThenAdjacentDoubleQuotes(parts: seq<Part>, a: string, b: string, c: string)
    requires parts == [Word("echo").(isCommand := true), DoubleQuoted(a), Separator(), DoubleQuoted(b), DoubleQuoted(c)]
    ensures EchoText(parts) == a + " " + b + c + "\n"
  {
    assert Rendered(parts, 5) == "";
    assert Rendered(parts, 4) == c + "" + "";
    assert Rendered(parts, 3) == b + "" + c;
    assert Rendered(parts, 2) == " " + "" + (b + c);
    assert Rendered(parts, 1) == a + "" + (" " + b + c);
  }


  /**
   * `echo "a\cb"`: inside double quotes the backslash is dropped only before
   * `$`, `"` and `\`, and kept before any other character.
   */
  lemma EchoDoubleQuotedEscape(a: string, c: char, b: string)
    requires '"' !in a && '\\' !in a && '"' !in b && '\\' !in b
    ensures Tokenize("echo " + DoubleQuotedWithEscape(a, c, b)) ==
      [Word("echo").(isCommand := true), DoubleQuoted(a + DoubleQuotedEscape(c) + b)]
    ensures EchoText(Tokenize("echo " + DoubleQuotedWithEscape(a, c, b))) == a + DoubleQuotedEscape(c) + b + "\n"
  {
    var s0 := Init().(parts := [Word("echo")]);
    var body := a + DoubleQuotedEscape(c) + b;
    assert Run(Init(), "echo " + DoubleQuotedWithEscape(a, c, b)) == s0.(parts := [Word("echo"), DoubleQuoted(body)]) by {
      EchoWordRun();
      DoubleQuotedEscapeSegment(s0, a, c, b);
      RunThen("echo ", s0, DoubleQuotedWithEscape(a, c, b), s0.(parts := [Word("echo"), DoubleQuoted(body)]));
    }
    var parts := [Word("echo").(isCommand := true), DoubleQuoted(body)];
    assert Rendered(parts, 2) == "";
    assert Rendered(parts, 1) == body + "" + "";
  }

  /** `echo 'a\cb'`: inside single quotes the backslash is always kept. */
  lemma EchoSingleQuotedEscape(a: string, c: char, b: string)
    requires '\'' !in a && '\\' !in a && '\'' !in b && '\\' !in b
    ensures Tokenize("echo " + SingleQuotedWithEscape(a, c, b)) ==
      [Word("echo").(isCommand := true), SingleQuoted(a + ['\\', c] + b)]
    ensures EchoText(Tokenize("echo " + SingleQuotedWithEscape(a, c, b))) == a + ['\\', c] + b + "\n"
  {
    var s0 := Init().(parts := [Word("echo")]);
    var body := a + ['\\', c] + b;
    assert Run(Init(), "echo " + SingleQuotedWithEscape(a, c, b)) == s0.(parts := [Word("echo"), SingleQuoted(body)]) by {
      EchoWordRun();
      SingleQuotedEscapeSegment(s0, a, c, b);
      RunThen("echo ", s0, SingleQuotedWithEscape(a, c, b), s0.(parts := [Word("echo"), SingleQuoted(body)]));
    }
    var parts := [Word("echo").(isCommand := true), SingleQuoted(body)];
    assert Rendered(parts, 2) == "";
    assert Rendered(parts, 1) == body + "" + "";
  }

  /** An escaped space prints a space and nothing after it. */
  lemma RenderedEscapedSpace(parts: seq<Part>, i: nat)
    requires i < |parts| && parts[i] == EscapedChar(' ')
    ensures Rendered(parts, i) == " " + Rendered(parts, i + 1)
  {
    assert Gap(parts, i) == "";
  }

  /** Escaped parts print their character and never a space after it. */
  lemma {:induction false} RenderedSpaceEscapes(parts: seq<Part>, i: nat, m: nat)
    requires i + m <= |parts|
    requires forall k :: i <= k < i + m ==> parts[k] == EscapedChar(' ')
    ensures Rendered(parts, i) == Spaces(m) + Rendered(parts, i + m)
    decreases m
  {
    if m > 0 {
      RenderedEscapedSpace(parts, i);
      RenderedSpaceEscapes(parts, i + 1, m - 1);
      assert Spaces(m) == " " + Spaces(m - 1);
    }
  }

  /** The state after `echo a\ \ ...\ b` with `n` escaped spaces: `b` is still in the buffer. */
  lemma EscapedSpacesRun(a: string, b: string, n: nat)
    requires SimpleWord(a) && SimpleWord(b) && n >= 1
    ensures Run(Init(), "echo " + a + EscapedSpaces(n) + b) ==
      Init().(parts := [Word("echo"), Word(a)] + SpaceEscapes(n), token := b)
  {
    var s0 := Init().(parts := [Word("echo")]);
    var s1 := s0.(token := a);
    var s3 := Init().(parts := [Word("echo"), Word(a)] + SpaceEscapes(n));
    assert Run(Init(), "echo " + a + EscapedSpaces(n)) == s3 by {
      EchoWordRun();
      TypeWord("echo ", s0, a);
      EscapesAfterWord(s1, n);
      assert s0.parts + [Word(a)] == [Word("echo"), Word(a)];
      RunThen("echo " + a, s1, EscapedSpaces(n), s3);
    }
    TypeWord("echo " + a + EscapedSpaces(n), s3, b);
  }

  /**
   * `echo a\ \ ...\ b` with `n` escaped spaces: each escaped space is a part of
   * its own, and `a`, the spaces and `b` print with nothing added between them.
   */
  lemma EchoEscapedSpaces(a: string, b: string, n: nat)
    requires SimpleWord(a) && SimpleWord(b) && n >= 1
    ensures Tokenize("echo " + a + EscapedSpaces(n) + b) ==
      [Word("echo").(isCommand := true), Word(a)] + SpaceEscapes(n) + [Flushed(b, false, "1")]
    ensures EchoText(Tokenize("echo " + a + EscapedSpaces(n) + b)) == a + Spaces(n) + b + "\n"
  {
    var raw := "echo " + a + EscapedSpaces(n) + b;
    var parts := [Word("echo").(isCommand := true), Word(a)] + SpaceEscapes(n) + [Flushed(b, false, "1")];
    var s := Init().(parts := [Word("echo"), Word(a)] + SpaceEscapes(n), token := b);
    assert Run(Init(), raw) == s by {
      EscapedSpacesRun(a, b, n);
    }
    assert Finish(s) == parts by {
      MarkCommandFront([Word("echo"), Word(a)] + SpaceEscapes(n) + [Flushed(b, false, "1")]);
    }
    RenderEscapedSpaces(parts, a, b, n);
  }

  /** Marking the command word changes only the first part. */
  lemma MarkCommandFront(parts: seq<Part>)
    requires |parts| > 0
    ensures MarkCommand(parts) == [parts[0].(isCommand := true)] + parts[1..]
  {
  }

  /** The rendering half of `EchoEscapedSpaces`. */
  lemma RenderEscapedSpaces(parts: seq<Part>, a: string, b: string, n: nat)
    requires n >= 1
    requires parts == [Word("echo").(isCommand := true), Word(a)] + SpaceEscapes(n) + [Flushed(b, false, "1")]
    ensures EchoText(parts) == a + Spaces(n) + b + "\n"
  {
    assert |parts| == n + 3 && parts[n + 2] == Flushed(b, false, "1");
    assert Rendered(parts, n + 3) == "";
    assert Rendered(parts, n + 2) == b + "" + "";
    RenderedSpaceEscapes(parts, 2, n);
    assert Rendered(parts, 1) == a + "" + Rendered(parts, 2);
  }


  /** The state after `echo "a\"b"c\"`. */
  lemma EscapedQuotesRun(a: string, b: string, c: string)
    requires '"' !in a && '\\' !in a && '"' !in b && '\\' !in b
    requires forall x :: x in c ==> Ordinary(x)
    requires c != ""
    ensures Run(Init(), "echo " + DoubleQuotedWithEscape(a, '"', b) + c + "\\\"") ==
      Init().(parts := [Word("echo"), DoubleQuoted(a + "\"" + b), Word(c), EscapedChar('"')])
  {
    var s0 := Init().(parts := [Word("echo")]);
    var s1 := s0.(parts := s0.parts + [DoubleQuoted(a + "\"" + b)]);
    var s2 := s1.(token := c);
    var s3 := s1.(parts := s1.parts + [Word(c), EscapedChar('"')]);
    var quoted := DoubleQuotedWithEscape(a, '"', b);
    assert Run(Init(), "echo " + quoted) == s1 by {
      EchoWordRun();
      DoubleQuotedEscapeSegment(s0, a, '"', b);
      RunThen("echo ", s0, quoted, s1);
    }
    TypeWord("echo " + quoted, s1, c);
    EscapeStep(s2, '"');
    RunThen("echo " + quoted + c, s2, "\\\"", s3);
  }

  /**
   * `echo "a\"b"c\"`: an escaped `"` inside double quotes is kept as a literal
   * quote, and outside quotes it becomes an `Escaped` part that is printed right
   * after the word before it.
   */
  lemma EchoEscapedQuotes(a: string, b: string, c: string)
    requires '"' !in a && '\\' !in a && '"' !in b && '\\' !in b
    requires forall x :: x in c ==> Ordinary(x)
    requires c != ""
    ensures Tokenize("echo " + DoubleQuotedWithEscape(a, '"', b) + c + "\\\"") ==
      [Word("echo").(isCommand := true), DoubleQuoted(a + "\"" + b), Word(c), EscapedChar('"')]
    ensures EchoText(Tokenize("echo " + DoubleQuotedWithEscape(a, '"', b) + c + "\\\"")) ==
      a + "\"" + b + c + "\"" + "\n"
  {
    var raw := "echo " + DoubleQuotedWithEscape(a, '"', b) + c + "\\\"";
    var parts := [Word("echo").(isCommand := true), DoubleQuoted(a + "\"" + b), Word(c), EscapedChar('"')];
    assert Tokenize(raw) == parts by {
      EscapedQuotesRun(a, b, c);
    }
    RenderEscapedQuotes(parts, a + "\"" + b, c);
  }

  /** The rendering half of `EchoEscapedQuotes`. */
  lemma RenderEscapedQuotes(parts: seq<Part>, body: string, c: string)
    requires parts == [Word("echo").(isCommand := true), DoubleQuoted(body), Word(c), EscapedChar('"')]
    ensures EchoText(parts) == body + c + "\"" + "\n"
  {
    assert Rendered(parts, 4) == "";
    assert Rendered(parts, 3) == "\"" + "" + "";
    assert Rendered(parts, 2) == c + "" + "\"";
    assert Rendered(parts, 1) == body + "" + (c + "\"");
  }

  /** `echo 'a'`: one single-quoted part, printed as it stands. */
  lemma EchoSingleQuoted(a: string)
    requires '\'' !in a && '\\' !in a
    ensures Tokenize("echo " + Quote(a)) == [Word("echo").(isCommand := true), SingleQuoted(a)]
    ensures EchoText(Tokenize("echo " + Quote(a))) == a + "\n"
  {
    EchoQuoteRun(a);
    var parts := [Word("echo").(isCommand := true), SingleQuoted(a)];
    assert Rendered(parts, 2) == "";
    assert Rendered(parts, 1) == a + "" + "";
  }

  /** `echo` alone prints an empty line. */
  lemma EchoAlone(raw: string)
    requires raw == "echo"
    ensures Tokenize(raw) == [Flushed("echo", false, "1").(isCommand := true)]
    ensures EchoText(Tokenize(raw)) == "\n"
  {
    assert Run(Init(), raw) == Init().(token := "echo") by {
      OrdinaryText(Init(), raw);
      assert "" + raw == raw;
    }
  }

  /** `echo w` with one word: the word is flushed as the last part and printed alone. */
  lemma EchoOneWord(w: string)
    requires w != "" && forall c :: c in w ==> Ordinary(c)
    ensures Tokenize("echo " + w) == [Word("echo").(isCommand := true), Flushed(w, false, "1")]
    ensures EchoText(Tokenize("echo " + w)) == w + "\n"
  {
    var s0 := Init().(parts := [Word("echo")]);
    EchoWordRun();
    TypeWord("echo ", s0, w);
    var parts := [Word("echo").(isCommand := true), Flushed(w, false, "1")];
    assert Rendered(parts, 2) == "";
    assert Rendered(parts, 1) == w + "" + "";
  }

  /** The characters of the special-characters test line. */
  lemma SpecialCharactersLine()
    ensures "echo " + "!@#$%^&*()" == "echo !@#$%^&*()"
    ensures forall c :: c in "!@#$%^&*()" ==> Ordinary(c)
  {
  }

  /** `echo !@#$%^&*()` prints `!@#$%^&*()`. */
  lemma EchoSpecialCharacters(raw: string)
    requires raw == "echo !@#$%^&*()"
    ensures EchoText(Tokenize(raw)) == "!@#$%^&*()" + "\n"
  {
    SpecialCharactersLine();
    EchoOneWord("!@#$%^&*()");
  }

  /** `echo 'a b'` prints `a b`. */
  lemma EchoSingleQuotedExample(raw: string)
    requires raw == "echo 'a b'"
    ensures EchoText(Tokenize(raw)) == "a b\n"
  {
    assert "echo " + Quote("a b") == raw;
    EchoSingleQuoted("a b");
  }

  /** `echo "a b"` prints `a b`. */
  lemma EchoDoubleQuotedExample(raw: string)
    requires raw == "echo \"a b\""
    ensures EchoText(Tokenize(raw)) == "a b\n"
  {
    assert "echo " + DoubleQuote("a b") == raw;
    EchoDoubleQuoted("a b");
  }

  /** The characters of the line with three spaced double-quoted segments. */
  lemma SpacedDoubleQuotesLine()
    ensures "echo " + DoubleQuote("bar") + "  " + DoubleQuote("shell's") + "  " + DoubleQuote("foo") ==
      "echo \"bar\"  \"shell's\"  \"foo\""
    ensures "bar" + " " + "shell's" + " " + "foo" + "\n" == "bar shell's foo" + "\n"
  {
  }

  /** `echo "bar"  "shell's"  "foo"` prints `bar shell's foo`. */
  lemma EchoSpacedDoubleQuotesExample(raw: string)
    requires raw == "echo \"bar\"  \"shell's\"  \"foo\""
    ensures EchoText(Tokenize(raw)) == "bar shell's foo" + "\n"
  {
    SpacedDoubleQuotesLine();
    EchoSpacedDoubleQuotes("bar", "shell's", "foo");
  }

  /** The characters of the line with spaced and adjacent double-quoted segments. */
  lemma SpacedThenAdjacentLine()
    ensures "echo " + DoubleQuote("world  hello") + "  " + DoubleQuote("example") + DoubleQuote("script") ==
      "echo \"world  hello\"  \"example\"\"script\""
    ensures "world  hello" + " " + "example" + "script" + "\n" == "world  hello examplescript" + "\n"
  {
  }

  /** `echo "world  hello"  "example""script"` prints `world  hello examplescript`. */
  lemma EchoSpacedThenAdjacentExample(raw: string)
    requires raw == "echo \"world  hello\"  \"example\"\"script\""
    ensures EchoText(Tokenize(raw)) == "world  hello examplescript" + "\n"
  {
    SpacedThenAdjacentLine();
    EchoSpacedThenAdjacentDoubleQuotes("world  hello", "example", "script");
  }

  /** The characters of the line with an escaped space inside double quotes. */
  lemma BackslashSpaceLine()
    ensures "echo " + DoubleQuotedWithEscape("before", ' ', "  after") == "echo \"before\\   after\""
    ensures "before" + DoubleQuotedEscape(' ') + "  after" + "\n" == "before\\   after" + "\n"
  {
  }

  /** `echo "before\   after"` prints `before\   after`: the backslash is kept. */
  lemma EchoBackslashSpaceExample(raw: string)
    requires raw == "echo \"before\\   after\""
    ensures EchoText(Tokenize(raw)) == "before\\   after" + "\n"
  {
    BackslashSpaceLine();
    EchoDoubleQuotedEscape("before", ' ', "  after");
  }

  /** The characters of the line with six escaped spaces. */
  lemma EscapedSpacesLine()
    ensures "echo " + "world" + EscapedSpaces(6) + "script" == "echo world\\ \\ \\ \\ \\ \\ script"
    ensures "world" + Spaces(6) + "script" + "\n" == "world      script" + "\n"
    ensures SimpleWord("world") && SimpleWord("script")
  {
    assert !IsSpace("world"[0]) && !IsSpace("script"[0]);
  }

  /** `echo world\ \ \ \ \ \ script` prints `world      script`. */
  lemma EchoEscapedSpacesExample(raw: string)
    requires raw == "echo world\\ \\ \\ \\ \\ \\ script"
    ensures EchoText(Tokenize(raw)) == "world      script" + "\n"
  {
    EscapedSpacesLine();
    EchoEscapedSpaces("world", "script", 6);
  }

  /** The characters of the line with an escaped newline inside single quotes. */
  lemma SingleQuotedBackslashLine()
    ensures "echo " + SingleQuotedWithEscape("shell", '\n', "script") == "echo 'shell\\\nscript'"
    ensures "shell" + ['\\', '\n'] + "script" + "\n" == "shell\\\nscript" + "\n"
  {
  }

  /** `echo 'shell\<newline>script'` prints the backslash and the newline as they stand. */
  lemma EchoSingleQuotedBackslashExample(raw: string)
    requires raw == "echo 'shell\\\nscript'"
    ensures EchoText(Tokenize(raw)) == "shell\\\nscript" + "\n"
  {
    SingleQuotedBackslashLine();
    EchoSingleQuotedEscape("shell", '\n', "script");
  }

  /** The characters of the line with `\n` inside double quotes. */
  lemma BackslashLetterLine()
    ensures "echo " + DoubleQuotedWithEscape("hello'script'", 'n', "'world") == "echo \"hello'script'\\n'world\""
    ensures "hello'script'" + DoubleQuotedEscape('n') + "'world" + "\n" == "hello'script'\\n'world" + "\n"
  {
  }

  /** `echo "hello'script'\n'world"` prints `hello'script'\n'world`: the backslash before `n` is kept. */
  lemma EchoBackslashLetterExample(raw: string)
    requires raw == "echo \"hello'script'\\n'world\""
    ensures EchoText(Tokenize(raw)) == "hello'script'\\n'world" + "\n"
  {
    BackslashLetterLine();
    EchoDoubleQuotedEscape("hello'script'", 'n', "'world");
  }

  /** The characters of the line with escaped double quotes inside and outside quotes. */
  lemma EscapedQuotesLine()
    ensures "echo " + DoubleQuotedWithEscape("hello", '"', "insidequotes") + "script" + "\\\"" ==
      "echo \"hello\\\"insidequotes\"script\\\""
    ensures "hello" + "\"" + "insidequotes" + "script" + "\"" + "\n" == "hello\"insidequotesscript\"" + "\n"
    ensures forall c :: c in "script" ==> Ordinary(c)
  {
  }

  /** `echo "hello\"insidequotes"script\"` prints `hello"insidequotesscript"`. */
  lemma EchoEscapedQuotesExample(raw: string)
    requires raw == "echo \"hello\\\"insidequotes\"script\\\""
    ensures EchoText(Tokenize(raw)) == "hello\"insidequotesscript\"" + "\n"
  {
    EscapedQuotesLine();
    EchoEscapedQuotes("hello", "insidequotes", "script");
  }
}
