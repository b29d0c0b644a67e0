/**
 * Properties of the tokenizer: what each kind of character does to the state,
 * and what whole quoted segments, escapes and space-separated words become.
 */
module LexerProperties {
  import opened GoStrings
  import opened Lexer

  /** Not inside either kind of quote and no escape pending. */
  predicate Unquoted(s: LexState) {
    !s.inQuotes && !s.inDoubleQuotes && !s.toEscape
  }

  /** A character with no role of its own outside quotes. */
  predicate Ordinary(c: char) {
    c != ' ' && c != '\'' && c != '"' && c != '\\' && c != '>'
  }

  /** The parts `[Word(w) | w in ws]`. */
  function Words(ws: seq<string>): (r: seq<Part>)
    ensures |r| == |ws|
    ensures forall k :: 0 <= k < |ws| ==> r[k] == Word(ws[k])
  {
    seq(|ws|, k requires 0 <= k < |ws| => Word(ws[k]))
  }

  /** Folding the steps over `a + b` is folding over `a`, then over `b`. */
  lemma {:induction false} RunAppend(s: LexState, a: string, b: string)
    ensures Run(s, a + b) == Run(Run(s, a), b)
    decreases |b|
  {
    if |b| == 0 {
      assert a + b == a;
    } else {
      var front, c := b[..|b| - 1], b[|b| - 1];
      RunAppend(s, a, front);
      calc {
        Run(s, a + b);
      == { assert (a + b)[..|a + b| - 1] == a + front; assert (a + b)[|a + b| - 1] == c; }
        Step(Run(s, a + front), c);
      ==
        Step(Run(Run(s, a), front), c);
      }
    }
  }

  /** Folding over one character is one step. */
  lemma RunOne(s: LexState, c: char)
    ensures Run(s, [c]) == Step(s, c)
  {
    assert [c][..0] == [];
  }

  /**
   * A space outside quotes: a non-blank buffer is flushed as one plain part and no
   * separator; a separator is emitted only for a blank buffer and only when the last
   * part is not already a separator; with a redirect pending, a non-blank buffer
   * becomes the redirect target and the buffer is kept.
   */
  lemma SpaceRule(s: LexState)
    requires Unquoted(s)
    ensures var t := Step(s, ' ');
      && (!s.redirect && !Blank(s.token) ==> t.parts == s.parts + [Word(s.token)] && t.token == "")
      && (s.redirect && !Blank(s.token) ==>
            t.parts == s.parts + [Flushed(s.token, true, s.redirectId)] && t.token == s.token && !t.redirect)
      && (Blank(s.token) ==>
            t.token == "" && t.redirect == s.redirect &&
            t.parts == if EndsWithSeparator(s.parts) then s.parts else s.parts + [Separator()])
      && (|t.parts| > |s.parts| && t.parts[|t.parts| - 1].separator ==> Blank(s.token))
  {
  }

  /**
   * A `>` outside quotes starts a redirect: one trailing `1` of the buffer is dropped,
   * what remains is flushed as a plain part if non-empty, and the buffer is cleared.
   */
  lemma RedirectRule(s: LexState)
    requires Unquoted(s)
    ensures var t := Step(s, '>');
      var kept := if |s.token| > 0 && s.token[|s.token| - 1] == '1' then s.token[..|s.token| - 1] else s.token;
      && t.redirect && t.token == ""
      && t.parts == (if kept == "" then s.parts else s.parts + [Word(kept)])
      && s.token == kept + (if kept == s.token then "" else "1")
  {
  }

  /** Inside single quotes the backslash is always kept, so `\'` does not close the quote. */
  lemma {:induction false} EscapeInSingleQuotes(s: LexState, c: char)
    requires s.inQuotes && !s.inDoubleQuotes && !s.toEscape
    ensures var t := Run(s, ['\\', c]);
      t == s.(token := s.token + ['\\', c])
  {
    var cs := ['\\', c];
    assert cs[..1] == ['\\'] && cs[..1][..0] == [];
    assert Run(s, cs[..1]) == s.(toEscape := true);
  }

  /**
   * Inside single quotes every character but `'` and `\` is literal buffer
   * content: spaces, `"` and `>` included.
   */
  lemma {:induction false} InsideSingleQuotes(s: LexState, w: string)
    requires s.inQuotes && !s.inDoubleQuotes && !s.toEscape
    requires '\'' !in w && '\\' !in w
    ensures Run(s, w) == s.(token := s.token + w)
    decreases |w|
  {
    if |w| > 0 {
      var init := w[..|w| - 1];
      assert forall c :: c in init ==> c in w;
      InsideSingleQuotes(s, init);
      assert init + [w[|w| - 1]] == w;
    }
  }

  /**
   * Inside double quotes every character but `"` and `\` is literal buffer
   * content: spaces, `'` and `>` included.
   */
  lemma {:induction false} InsideDoubleQuotes(s: LexState, w: string)
    requires s.inDoubleQuotes && !s.inQuotes && !s.toEscape
    requires '"' !in w && '\\' !in w
    ensures Run(s, w) == s.(token := s.token + w)
    decreases |w|
  {
    if |w| > 0 {
      var init := w[..|w| - 1];
      assert forall c :: c in init ==> c in w;
      InsideDoubleQuotes(s, init);
      assert init + [w[|w| - 1]] == w;
    }
  }

  /**
   * A whole single-quoted segment emits exactly one `InQuotes` part, possibly
   * empty, holding the buffer as it stood before the opening quote followed by the
   * quoted text (opening a quote does not flush), and leaves the buffer empty.
   */
  lemma SingleQuotedSegment(s: LexState, w: string)
    requires Unquoted(s)
    requires '\'' !in w && '\\' !in w
    ensures Run(s, ['\''] + w + ['\'']) == s.(token := "", parts := s.parts + [SingleQuoted(s.token + w)])
  {
    var entered := s.(inQuotes := true);
    assert Run(s, ['\'']) == entered by {
      assert ['\''][..0] == [];
    }
    RunAppend(s, ['\''], w);
    InsideSingleQuotes(entered, w);
    RunAppend(s, ['\''] + w, ['\'']);
    assert ['\''][..0] == [];
  }

  /**
   * A whole double-quoted segment without escapes emits exactly one
   * `InDoubleQuotes` part holding the earlier buffer followed by the quoted text.
   */
  lemma DoubleQuotedSegment(s: LexState, w: string)
    requires Unquoted(s)
    requires '"' !in w && '\\' !in w
    ensures Run(s, ['"'] + w + ['"']) == s.(token := "", parts := s.parts + [DoubleQuoted(s.token + w)])
  {
    var entered := s.(inDoubleQuotes := true);
    assert Run(s, ['"']) == entered by {
      assert ['"'][..0] == [];
    }
    RunAppend(s, ['"'], w);
    InsideDoubleQuotes(entered, w);
    RunAppend(s, ['"'] + w, ['"']);
    assert ['"'][..0] == [];
  }

  /** Ordinary characters outside quotes only extend the buffer. */
  lemma {:induction false} OrdinaryText(s: LexState, w: string)
    requires Unquoted(s)
    requires forall c :: c in w ==> Ordinary(c)
    ensures Run(s, w) == s.(token := s.token + w)
    decreases |w|
  {
    if |w| > 0 {
      var init := w[..|w| - 1];
      assert forall c :: c in init ==> c in w;
      OrdinaryText(s, init);
      assert w[|w| - 1] in w;
      assert init + [w[|w| - 1]] == w;
    }
  }

  /** A word of ordinary characters that is not all white space. */
  predicate SimpleWord(w: string) {
    !Blank(w) && forall c :: c in w ==> Ordinary(c)
  }

  /** A simple word and a space, typed on an empty buffer outside quotes, add one plain part. */
  lemma WordThenSpace(s: LexState, w: string)
    requires Unquoted(s) && !s.redirect && s.token == ""
    requires SimpleWord(w)
    ensures Run(s, w + " ") == s.(parts := s.parts + [Word(w)])
  {
    var typed := s.(token := w);
    assert Run(s, w) == typed by {
      OrdinaryText(s, w);
      assert s.token + w == w;
    }
    RunAppend(s, w, " ");
    RunOne(typed, ' ');
  }

  /**
   * Words joined by single spaces: every word but the last has been flushed as a
   * plain part and the last one is still in the buffer.
   */
  lemma {:induction false} RunWords(ws: seq<string>)
    requires |ws| > 0
    requires forall k :: 0 <= k < |ws| ==> SimpleWord(ws[k])
    ensures Run(Init(), Join(ws, ' ')) == Init().(token := ws[|ws| - 1], parts := Words(ws[..|ws| - 1]))
    decreases |ws|
  {
    var n := |ws|;
    if n == 1 {
      OrdinaryText(Init(), ws[0]);
    } else {
      var front := ws[..n - 1];
      assert Run(Init(), Join(front, ' ')) == Init().(token := ws[n - 2], parts := Words(ws[..n - 2])) by {
        SimplePrefix(ws, n - 1);
        RunWords(front);
        assert front[..n - 2] == ws[..n - 2];
      }
      NextWord(Join(front, ' '), ws[n - 2], ws[n - 1], Words(ws[..n - 2]));
      WordsNext(ws, n - 2);
    }
  }

  /** One more flushed word. */
  lemma WordsNext(ws: seq<string>, m: nat)
    requires m < |ws|
    ensures Words(ws[..m]) + [Word(ws[m])] == Words(ws[..m + 1])
  {
  }

  /** A space and another simple word flush the word in the buffer and start the next one. */
  lemma NextWord(x: string, prev: string, w: string, parts: seq<Part>)
    requires SimpleWord(prev) && SimpleWord(w)
    requires Run(Init(), x) == Init().(token := prev, parts := parts)
    ensures Run(Init(), x + " " + w) == Init().(token := w, parts := parts + [Word(prev)])
  {
    var s := Init().(token := prev, parts := parts);
    var spaced := Init().(parts := parts + [Word(prev)]);
    assert Run(Init(), x + " ") == spaced by {
      RunAppend(Init(), x, " ");
      RunOne(s, ' ');
    }
    assert Run(spaced, w) == Init().(token := w, parts := parts + [Word(prev)]) by {
      OrdinaryText(spaced, w);
      assert "" + w == w;
    }
    RunAppend(Init(), x + " ", w);
  }

  /** Every prefix of a list of simple words is one. */
  lemma SimplePrefix(ws: seq<string>, m: nat)
    requires m <= |ws|
    requires forall k :: 0 <= k < |ws| ==> SimpleWord(ws[k])
    ensures forall k :: 0 <= k < |ws[..m]| ==> SimpleWord(ws[..m][k])
  {
    assert forall k :: 0 <= k < m ==> ws[..m][k] == ws[k];
  }

  /**
   * A line of simple words separated by single spaces tokenizes into one plain
   * part per word, in order, with the first marked as the command word.
   */
  lemma TokenizeWords(ws: seq<string>)
    requires |ws| > 0
    requires forall k :: 0 <= k < |ws| ==> SimpleWord(ws[k])
    ensures var parts := Tokenize(Join(ws, ' '));
      && |parts| == |ws|
      && (forall k :: 0 <= k < |ws| ==> parts[k].body == ws[k] && IsPlain(parts[k]))
      && parts[0].isCommand
  {
    var n := |ws|;
    var flushed := Words(ws[..n - 1]) + [Flushed(ws[n - 1], false, "1")];
    TokenizeJoined(ws);
    FlushedPlain(ws);
    MarkCommandKeeps(flushed);
  }

  /** The flushed words are plain parts holding the words, in order. */
  lemma FlushedPlain(ws: seq<string>)
    requires |ws| > 0
    ensures var flushed := Words(ws[..|ws| - 1]) + [Flushed(ws[|ws| - 1], false, "1")];
      |flushed| == |ws| && forall k :: 0 <= k < |ws| ==> flushed[k].body == ws[k] && IsPlain(flushed[k])
  {
    var n := |ws|;
    var flushed := Words(ws[..n - 1]) + [Flushed(ws[n - 1], false, "1")];
    forall k | 0 <= k < n
      ensures flushed[k].body == ws[k] && IsPlain(flushed[k])
    {
      if k < n - 1 {
        assert flushed[k] == Word(ws[k]);
      }
    }
  }

  /** The parts of simple words joined by spaces, before the command word is marked. */
  lemma TokenizeJoined(ws: seq<string>)
    requires |ws| > 0
    requires forall k :: 0 <= k < |ws| ==> SimpleWord(ws[k])
    ensures Tokenize(Join(ws, ' ')) == MarkCommand(Words(ws[..|ws| - 1]) + [Flushed(ws[|ws| - 1], false, "1")])
  {
    var n := |ws|;
    var last := Init().(token := ws[n - 1], parts := Words(ws[..n - 1]));
    RunWords(ws);
    assert |last.token| > 0 by {
      assert !Blank(ws[n - 1]);
    }
  }

  /** Marking the command word changes no body and no kind flag. */
  lemma MarkCommandKeeps(parts: seq<Part>)
    ensures var marked := MarkCommand(parts);
      && |marked| == |parts|
      && (forall k :: 0 <= k < |parts| ==> marked[k].body == parts[k].body && KindCount(marked[k]) == KindCount(parts[k]))
      && (|parts| > 0 ==> marked[0].isCommand)
  {
  }

  /**
   * On such a line the raw split on `' '` (the `Args` of a command) and the bodies
   * of the parts agree.
   */
  lemma {:induction false} ArgsMatchParts(ws: seq<string>)
    requires |ws| > 0
    requires forall k :: 0 <= k < |ws| ==> SimpleWord(ws[k])
    ensures Split(Join(ws, ' '), ' ') == ws
    decreases |ws|
  {
    var n := |ws|;
    if n == 1 {
      OrdinarySplit(ws[0]);
    } else {
      var front := ws[..n - 1];
      assert forall k :: 0 <= k < |front| ==> front[k] == ws[k];
      ArgsMatchParts(front);
      assert ' ' !in ws[n - 1] by {
        assert forall c :: c in ws[n - 1] ==> Ordinary(c);
      }
      SplitAfterLast(Join(front, ' '), ' ', ws[n - 1]);
      assert Join(ws, ' ') == Join(front, ' ') + [' '] + ws[n - 1];
    }
  }

  /** A string without the separator splits into itself. */
  lemma {:induction false} OrdinarySplit(w: string)
    requires forall c :: c in w ==> Ordinary(c)
    ensures Split(w, ' ') == [w]
    decreases |w|
  {
    if |w| > 0 {
      var init := w[..|w| - 1];
      assert forall c :: c in init ==> c in w;
      OrdinarySplit(init);
      assert w[|w| - 1] in w;
      assert init + [w[|w| - 1]] == w;
    }
  }

  /** A step never removes or changes an emitted part. */
  lemma StepExtendsParts(s: LexState, c: char)
    ensures s.parts <= Step(s, c).parts
  {
  }

  /** The emitted parts only ever grow at the end. */
  lemma {:induction false} RunExtendsParts(s: LexState, cs: string)
    ensures s.parts <= Run(s, cs).parts
    decreases |cs|
  {
    if |cs| > 0 {
      RunExtendsParts(s, cs[..|cs| - 1]);
      StepExtendsParts(Run(s, cs[..|cs| - 1]), cs[|cs| - 1]);
    }
  }

  /**
   * A line that starts with a simple word followed by a space, or is that word
   * alone, has that word as the body of its first part, and that part is not a
   * redirect.
   */
  lemma LeadingWord(raw: string, w: string)
    requires SimpleWord(w)
    requires raw == w || w + " " <= raw
    ensures var parts := Tokenize(raw);
      |parts| > 0 && parts[0].body == w && !parts[0].redirect
  {
    if raw == w {
      assert Run(Init(), w) == Init().(token := w) by {
        OrdinaryText(Init(), w);
        assert Init().token + w == w;
      }
    } else {
      var rest := raw[|w| + 1..];
      assert raw == w + " " + rest;
      WordThenSpace(Init(), w);
      var spaced := Run(Init(), w + " ");
      RunAppend(Init(), w + " ", rest);
      RunExtendsParts(spaced, rest);
    }
  }

  /** `n` spaces. */
  function Spaces(n: nat): (r: string)
    ensures |r| == n && forall k :: 0 <= k < n ==> r[k] == ' '
  {
    seq(n, k => ' ')
  }

  /** After a separator, further spaces outside quotes change nothing: a run of spaces is one separator. */
  lemma {:induction false} SpacesAfterSeparator(s: LexState, n: nat)
    requires Unquoted(s) && s.token == "" && EndsWithSeparator(s.parts)
    ensures Run(s, Spaces(n)) == s
    decreases n
  {
    if n > 0 {
      SpacesAfterSeparator(s, n - 1);
      assert Spaces(n)[..n - 1] == Spaces(n - 1);
    }
  }

  /**
   * An escape outside quotes, as a whole new state: a non-empty buffer is flushed
   * as a plain part, then the escaped character becomes an `Escaped` part.
   */
  lemma EscapeStep(s: LexState, c: char)
    requires Unquoted(s)
    ensures Run(s, ['\\', c]) ==
      s.(token := "", parts := (if s.token == "" then s.parts else s.parts + [Word(s.token)]) + [EscapedChar(c)])
  {
    RunAppend(s, ['\\'], [c]);
    RunOne(s, '\\');
    RunOne(s.(toEscape := true), c);
    assert ['\\'] + [c] == ['\\', c];
  }

  /** What an escaped character adds to the buffer inside double quotes. */
  function DoubleQuotedEscape(c: char): (r: string)
    ensures c in "$\"\\" ==> r == [c]
    ensures c !in "$\"\\" ==> r == ['\\', c]
  {
    if c == '$' || c == '"' || c == '\\' then [c] else ['\\', c]
  }

  /** An escape inside double quotes, as a whole new state: only the buffer grows. */
  lemma DoubleQuotedEscapeStep(s: LexState, c: char)
    requires s.inDoubleQuotes && !s.inQuotes && !s.toEscape
    ensures Run(s, ['\\', c]) == s.(token := s.token + DoubleQuotedEscape(c))
  {
    RunAppend(s, ['\\'], [c]);
    RunOne(s, '\\');
    RunOne(s.(toEscape := true), c);
    assert ['\\'] + [c] == ['\\', c];
  }

  /** `"a\cb"`: a double-quoted segment holding one escape. */
  function DoubleQuotedWithEscape(a: string, c: char, b: string): string {
    "\"" + a + ['\\', c] + b + "\""
  }

  /**
   * A double-quoted segment holding one escape emits one `InDoubleQuotes` part:
   * the backslash goes only before `$`, `"` and `\`, and an escaped `"` does
   * not close the quote.
   */
  lemma DoubleQuotedEscapeSegment(s: LexState, a: string, c: char, b: string)
    requires Unquoted(s) && s.token == ""
    requires '"' !in a && '\\' !in a && '"' !in b && '\\' !in b
    ensures Run(s, DoubleQuotedWithEscape(a, c, b)) ==
      s.(parts := s.parts + [DoubleQuoted(a + DoubleQuotedEscape(c) + b)])
  {
    var s1 := s.(inDoubleQuotes := true);
    var s2 := s1.(token := a);
    var s3 := s1.(token := a + DoubleQuotedEscape(c));
    var s4 := s1.(token := a + DoubleQuotedEscape(c) + b);
    assert Run(s, ['"'] + a) == s2 by {
      RunOne(s, '"');
      RunAppend(s, ['"'], a);
      InsideDoubleQuotes(s1, a);
      assert "" + a == a;
    }
    DoubleQuotedEscapeStep(s2, c);
    RunAppend(s, ['"'] + a, ['\\', c]);
    assert Run(s3, b) == s4 by {
      InsideDoubleQuotes(s3, b);
    }
    RunAppend(s, ['"'] + a + ['\\', c], b);
    RunOne(s4, '"');
    RunAppend(s, ['"'] + a + ['\\', c] + b, ['"']);
  }

  /** `'a\cb'`: a single-quoted segment holding one escape. */
  function SingleQuotedWithEscape(a: string, c: char, b: string): string {
    "'" + a + ['\\', c] + b + "'"
  }

  /**
   * A single-quoted segment holding one escape emits one `InQuotes` part that
   * keeps the backslash, whatever character follows it.
   */
  lemma SingleQuotedEscapeSegment(s: LexState, a: string, c: char, b: string)
    requires Unquoted(s) && s.token == ""
    requires '\'' !in a && '\\' !in a && '\'' !in b && '\\' !in b
    ensures Run(s, SingleQuotedWithEscape(a, c, b)) ==
      s.(parts := s.parts + [SingleQuoted(a + ['\\', c] + b)])
  {
    var s1 := s.(inQuotes := true);
    var s2 := s1.(token := a);
    var s3 := s1.(token := a + ['\\', c]);
    var s4 := s1.(token := a + ['\\', c] + b);
    assert Run(s, ['\''] + a) == s2 by {
      RunOne(s, '\'');
      RunAppend(s, ['\''], a);
      InsideSingleQuotes(s1, a);
      assert "" + a == a;
    }
    EscapeInSingleQuotes(s2, c);
    RunAppend(s, ['\''] + a, ['\\', c]);
    assert Run(s3, b) == s4 by {
      InsideSingleQuotes(s3, b);
    }
    RunAppend(s, ['\''] + a + ['\\', c], b);
    RunOne(s4, '\'');
    RunAppend(s, ['\''] + a + ['\\', c] + b, ['\'']);
  }

  /** `n` escaped spaces, `\ \ ...`. */
  function EscapedSpaces(n: nat): (r: string)
    ensures |r| == 2 * n
  {
    if n == 0 then "" else ['\\', ' '] + EscapedSpaces(n - 1)
  }

  /** `n` parts each holding one escaped space. */
  function SpaceEscapes(n: nat): (r: seq<Part>)
    ensures |r| == n && forall k :: 0 <= k < n ==> r[k] == EscapedChar(' ')
  {
    seq(n, k => EscapedChar(' '))
  }

  /** The first escaped space of `n`: the buffer is flushed and the space becomes a part. */
  lemma EscapedSpacesHead(s: LexState, n: nat)
    requires Unquoted(s) && n >= 1
    ensures Run(s, EscapedSpaces(n)) ==
      Run(s.(token := "", parts := (if s.token == "" then s.parts else s.parts + [Word(s.token)]) + [EscapedChar(' ')]),
          EscapedSpaces(n - 1))
  {
    EscapeStep(s, ' ');
    RunAppend(s, ['\\', ' '], EscapedSpaces(n - 1));
  }

  /**
   * One step of the induction below: if the spaces after the first one become
   * parts, so do all of them.
   */
  lemma EscapedSpacesStep(s: LexState, n: nat)
    requires Unquoted(s) && s.token == "" && n >= 1
    requires var t := s.(parts := s.parts + [EscapedChar(' ')]);
      Run(t, EscapedSpaces(n - 1)) == t.(parts := t.parts + SpaceEscapes(n - 1))
    ensures Run(s, EscapedSpaces(n)) == s.(parts := s.parts + SpaceEscapes(n))
  {
    var t := s.(parts := s.parts + [EscapedChar(' ')]);
    EscapedSpacesHead(s, n);
    assert t.parts + SpaceEscapes(n - 1) == s.parts + SpaceEscapes(n) by {
      assert [EscapedChar(' ')] + SpaceEscapes(n - 1) == SpaceEscapes(n);
    }
  }

  /** On an empty buffer outside quotes, each escaped space becomes a part of its own. */
  lemma {:induction false} RunEscapedSpaces(s: LexState, n: nat)
    requires Unquoted(s) && s.token == ""
    ensures Run(s, EscapedSpaces(n)) == s.(parts := s.parts + SpaceEscapes(n))
    decreases n
  {
    if n == 0 {
      assert s.parts + SpaceEscapes(0) == s.parts;
    } else {
      RunEscapedSpaces(s.(parts := s.parts + [EscapedChar(' ')]), n - 1);
      EscapedSpacesStep(s, n);
    }
  }

  /** Escaped spaces right after a word flush the word, then add one part per space. */
  lemma EscapesAfterWord(s: LexState, n: nat)
    requires Unquoted(s) && s.token != "" && n >= 1
    ensures Run(s, EscapedSpaces(n)) == s.(token := "", parts := s.parts + [Word(s.token)] + SpaceEscapes(n))
  {
    var t := s.(token := "", parts := (if s.token == "" then s.parts else s.parts + [Word(s.token)]) + [EscapedChar(' ')]);
    EscapedSpacesHead(s, n);
    RunEscapedSpaces(t, n - 1);
    assert t.parts + SpaceEscapes(n - 1) == s.parts + [Word(s.token)] + SpaceEscapes(n) by {
      assert t.parts == s.parts + [Word(s.token)] + [EscapedChar(' ')];
      assert [EscapedChar(' ')] + SpaceEscapes(n - 1) == SpaceEscapes(n);
    }
  }

  /** Two spaces on an empty buffer outside quotes emit one separator. */
  lemma TwoSpaces(s: LexState)
    requires Unquoted(s) && s.token == "" && !EndsWithSeparator(s.parts)
    ensures Run(s, "  ") == s.(parts := s.parts + [Separator()])
  {
    var t := s.(parts := s.parts + [Separator()]);
    RunOne(s, ' ');
    RunOne(t, ' ');
    RunAppend(s, " ", " ");
    assert " " + " " == "  ";
  }
}
