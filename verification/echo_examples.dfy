/**
 * What `echo` prints for the kinds of lines its tests exercise: bare words,
 * runs of spaces, adjacent and spaced single-quoted segments. Each general
 * lemma is followed by the concrete line it covers.
 */
module EchoExamples {
  import opened GoStrings
  import opened Lexer
  import opened LexerProperties
  import opened Consumers

  /** `echo w1 ... wn` with simple words prints them joined by single spaces. */
  lemma EchoOfWords(ws: seq<string>)
    requires |ws| > 0
    requires forall k :: 0 <= k < |ws| ==> SimpleWord(ws[k])
    ensures EchoText(Tokenize(Join(ws, ' '))) == Join(ws[1..], ' ') + "\n"
  {
    TokenizeWords(ws);
    EchoOfPlainParts(Tokenize(Join(ws, ' ')), ws);
  }

  lemma EchoOfPlainParts(parts: seq<Part>, ws: seq<string>)
    requires |parts| == |ws| > 0
    requires forall k :: 0 <= k < |ws| ==> parts[k].body == ws[k] && IsPlain(parts[k])
    ensures EchoText(parts) == Join(ws[1..], ' ') + "\n"
  {
    if |ws| > 1 {
      EchoWords(parts);
      assert Bodies(parts[1..]) == ws[1..];
    }
  }

  /** The state after the command word `echo` and one space. */
  lemma EchoWordRun()
    ensures Run(Init(), "echo ") == Init().(parts := [Word("echo")])
  {
    assert SimpleWord("echo") by {
      assert !IsSpace("echo"[0]);
    }
    WordThenSpace(Init(), "echo");
    assert "echo" + " " == "echo ";
    assert Init().parts + [Word("echo")] == [Word("echo")];
  }

  /** A single-quoted segment. */
  function Quote(w: string): string {
    "'" + w + "'"
  }

  /** The parts after `echo ` and one single-quoted segment. */
  lemma EchoQuoteRun(a: string)
    requires '\'' !in a && '\\' !in a
    ensures Run(Init(), "echo " + Quote(a)) == Init().(parts := [Word("echo"), SingleQuoted(a)])
  {
    var s0 := Init().(parts := [Word("echo")]);
    EchoWordRun();
    RunAppend(Init(), "echo ", Quote(a));
    SingleQuotedSegment(s0, a);
    assert "" + a == a;
  }

  /** `echo 'a''b'`: the two quoted segments become two adjacent quoted parts. */
  lemma TokenizeAdjacentQuotes(a: string, b: string)
    requires '\'' !in a && '\\' !in a && '\'' !in b && '\\' !in b
    ensures Tokenize("echo " + Quote(a) + Quote(b)) ==
      [Word("echo").(isCommand := true), SingleQuoted(a), SingleQuoted(b)]
  {
    var s1 := Init().(parts := [Word("echo"), SingleQuoted(a)]);
    var s2 := s1.(parts := s1.parts + [SingleQuoted(b)]);
    assert Run(Init(), "echo " + Quote(a) + Quote(b)) == s2 by {
      EchoQuoteRun(a);
      RunAppend(Init(), "echo " + Quote(a), Quote(b));
      SingleQuotedSegment(s1, b);
      assert "" + b == b;
    }
    assert Finish(s2) == MarkCommand(s2.parts);
  }

  /** `echo 'a' 'b'`: a separator part stands between the two quoted parts. */
  lemma TokenizeSpacedQuotes(a: string, b: string)
    requires '\'' !in a && '\\' !in a && '\'' !in b && '\\' !in b
    ensures Tokenize("echo " + Quote(a) + " " + Quote(b)) ==
      [Word("echo").(isCommand := true), SingleQuoted(a), Separator(), SingleQuoted(b)]
  {
    var s1 := Init().(parts := [Word("echo"), SingleQuoted(a)]);
    var s2 := s1.(parts := s1.parts + [Separator()]);
    var s3 := s2.(parts := s2.parts + [SingleQuoted(b)]);
    assert Run(Init(), "echo " + Quote(a) + " ") == s2 by {
      EchoQuoteRun(a);
      RunAppend(Init(), "echo " + Quote(a), " ");
      RunOne(s1, ' ');
    }
    assert Run(Init(), "echo " + Quote(a) + " " + Quote(b)) == s3 by {
      RunAppend(Init(), "echo " + Quote(a) + " ", Quote(b));
      SingleQuotedSegment(s2, b);
      assert "" + b == b;
    }
    assert Finish(s3) == MarkCommand(s3.parts);
  }

  /** Two single-quoted segments with nothing between them print as one word. */
  lemma EchoAdjacentQuotes(a: string, b: string)
    requires '\'' !in a && '\\' !in a && '\'' !in b && '\\' !in b
    ensures EchoText(Tokenize("echo " + Quote(a) + Quote(b))) == a + b + "\n"
  {
    TokenizeAdjacentQuotes(a, b);
    var parts := [Word("echo").(isCommand := true), SingleQuoted(a), SingleQuoted(b)];
    assert Rendered(parts, 3) == "";
    assert Rendered(parts, 2) == b + "" + "" == b;
    assert Rendered(parts, 1) == a + "" + b;
  }

  /** Two single-quoted segments separated by a space print with one space between them. */
  lemma EchoSpacedQuotes(a: string, b: string)
    requires '\'' !in a && '\\' !in a && '\'' !in b && '\\' !in b
    ensures EchoText(Tokenize("echo " + Quote(a) + " " + Quote(b))) == a + " " + b + "\n"
  {
    TokenizeSpacedQuotes(a, b);
    var parts := [Word("echo").(isCommand := true), SingleQuoted(a), Separator(), SingleQuoted(b)];
    assert Rendered(parts, 4) == "";
    assert Rendered(parts, 3) == b + "" + "" == b;
    assert Rendered(parts, 2) == " " + "" + b;
    assert Rendered(parts, 1) == a + "" + (" " + b);
  }

  /** After `echo a` and the first space, `a` is a part and the buffer is empty. */
  lemma EchoWordSpace(a: string)
    requires SimpleWord(a)
    ensures Run(Init(), "echo " + a + " ") == Init().(parts := [Word("echo"), Word(a)])
  {
    var s0 := Init().(parts := [Word("echo")]);
    EchoWordRun();
    WordThenSpace(s0, a);
    RunAppend(Init(), "echo ", a + " ");
    assert "echo " + (a + " ") == "echo " + a + " ";
  }

  /** After `echo a` and a run of two or more spaces, one separator follows `a`. */
  lemma EchoWordSpaces(a: string, n: nat)
    requires SimpleWord(a) && n >= 2
    ensures Run(Init(), "echo " + a + Spaces(n)) ==
      Init().(parts := [Word("echo"), Word(a), Separator()])
  {
    var s1 := Init().(parts := [Word("echo"), Word(a)]);
    var s2 := s1.(parts := s1.parts + [Separator()]);
    EchoWordSpace(a);
    assert Run(s1, " ") == s2 by {
      assert " "[..0] == [];
    }
    var rest := Spaces(n - 2);
    assert "echo " + a + Spaces(n) == ("echo " + a + " ") + " " + rest;
    RunAppend(Init(), "echo " + a + " ", " ");
    SpacesAfterSeparator(s2, n - 2);
    RunAppend(Init(), "echo " + a + " " + " ", rest);
  }

  /** After `echo a`, a run of two or more spaces and `b`, the buffer holds `b`. */
  lemma EchoSpaceRunState(a: string, b: string, n: nat)
    requires SimpleWord(a) && SimpleWord(b) && n >= 2
    ensures Run(Init(), "echo " + a + Spaces(n) + b) ==
      Init().(parts := [Word("echo"), Word(a), Separator()], token := b)
  {
    EchoWordSpaces(a, n);
    TypeWord("echo " + a + Spaces(n), Init().(parts := [Word("echo"), Word(a), Separator()]), b);
  }

  /** Ordinary text typed on an empty buffer outside quotes fills the buffer. */
  lemma TypeWord(x: string, s: LexState, w: string)
    requires Run(Init(), x) == s && Unquoted(s) && s.token == ""
    requires forall c :: c in w ==> Ordinary(c)
    ensures Run(Init(), x + w) == s.(token := w)
  {
    assert Run(s, w) == s.(token := w) by {
      OrdinaryText(s, w);
      assert s.token + w == w;
    }
    RunAppend(Init(), x, w);
  }

  /**
   * `echo a` followed by a run of two or more spaces and `b`: the run becomes
   * a single separator part.
   */
  lemma TokenizeSpaceRun(a: string, b: string, n: nat)
    requires SimpleWord(a) && SimpleWord(b) && n >= 2
    ensures Tokenize("echo " + a + Spaces(n) + b) ==
      [Word("echo").(isCommand := true), Word(a), Separator(), Flushed(b, false, "1")]
  {
    var s := Init().(parts := [Word("echo"), Word(a), Separator()], token := b);
    EchoSpaceRunState(a, b, n);
    assert |s.token| > 0;
    assert Finish(s) == MarkCommand(s.parts + [Flushed(b, false, "1")]);
  }

  /** `echo a   b` prints `a b`: the run of spaces prints as one. */
  lemma EchoSpaceRun(a: string, b: string, n: nat)
    requires SimpleWord(a) && SimpleWord(b) && n >= 2
    ensures EchoText(Tokenize("echo " + a + Spaces(n) + b)) == a + " " + b + "\n"
  {
    TokenizeSpaceRun(a, b, n);
    var parts := [Word("echo").(isCommand := true), Word(a), Separator(), Flushed(b, false, "1")];
    assert Rendered(parts, 4) == "";
    assert Rendered(parts, 3) == b + "" + "" == b;
    assert Rendered(parts, 2) == " " + "" + b;
    assert Rendered(parts, 1) == a + "" + (" " + b);
  }

  /** `echo a        b` prints `a b`. */
  lemma EchoSpaceRunExample(raw: string)
    requires raw == "echo a        b"
    ensures EchoText(Tokenize(raw)) == "a b\n"
  {
    assert SimpleWord("a") by {
      assert !IsSpace("a"[0]);
    }
    assert SimpleWord("b") by {
      assert !IsSpace("b"[0]);
    }
    assert "echo " + "a" + Spaces(8) + "b" == "echo a        b" by {
      assert Spaces(8) == "        ";
    }
    EchoSpaceRun("a", "b", 8);
    assert "a" + " " + "b" + "\n" == "a b\n";
  }

  /** `echo hello` prints `hello`. */
  lemma EchoHello(raw: string)
    requires raw == "echo hello"
    ensures EchoText(Tokenize(raw)) == "hello\n"
  {
    var ws := ["echo", "hello"];
    assert SimpleWord("echo") by {
      assert !IsSpace("echo"[0]);
    }
    assert SimpleWord("hello") by {
      assert !IsSpace("hello"[0]);
    }
    assert Join(ws, ' ') == raw by {
      assert ws[..1] == ["echo"];
    }
    assert Join(ws[1..], ' ') == "hello" by {
      assert ws[1..] == ["hello"];
    }
    EchoOfWords(ws);
  }

  /** `echo a b` prints `a b`. */
  lemma EchoTwoWords(raw: string)
    requires raw == "echo a b"
    ensures EchoText(Tokenize(raw)) == "a b\n"
  {
    var ws := ["echo", "a", "b"];
    assert SimpleWord("echo") by {
      assert !IsSpace("echo"[0]);
    }
    assert SimpleWord("a") by {
      assert !IsSpace("a"[0]);
    }
    assert SimpleWord("b") by {
      assert !IsSpace("b"[0]);
    }
    assert Join(ws, ' ') == raw by {
      assert ws[..1] == ["echo"];
      assert ws[1..] == ["a", "b"];
      assert ws[1..][..1] == ["a"];
    }
    assert Join(ws[1..], ' ') == "a b" by {
      assert ws[1..] == ["a", "b"];
      assert ws[1..][..1] == ["a"];
    }
    EchoOfWords(ws);
  }

  /** `echo 'a b''c d'` prints `a bc d`. */
  lemma EchoAdjacentQuotesExample(raw: string)
    requires raw == "echo 'a b''c d'"
    ensures EchoText(Tokenize(raw)) == "a bc d\n"
  {
    assert "echo " + Quote("a b") + Quote("c d") == "echo 'a b''c d'";
    EchoAdjacentQuotes("a b", "c d");
    assert "a b" + "c d" + "\n" == "a bc d\n";
  }

  /** `echo 'a b' 'c d'` prints `a b c d`. */
  lemma EchoSpacedQuotesExample(raw: string)
    requires raw == "echo 'a b' 'c d'"
    ensures EchoText(Tokenize(raw)) == "a b c d\n"
  {
    assert "echo " + Quote("a b") + " " + Quote("c d") == "echo 'a b' 'c d'";
    EchoSpacedQuotes("a b", "c d");
    assert "a b" + " " + "c d" + "\n" == "a b c d\n";
  }
}
