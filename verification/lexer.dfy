/**
 * The line tokenizer `processParts`: a per-character state machine that turns
 * a command line into a list of `Part` records.
 *
 * `Step` is the transition table (one branch of the Go loop body per case),
 * `Run` folds it over a prefix of the line, `Finish` is the flush and the
 * command marking after the loop, and `ProcessParts` is the imperative loop,
 * proved equal to `Tokenize`.
 */
module Lexer {
  import opened GoStrings

  /** One lexical unit of a command line, with the flags that say how it was formed. */
  datatype Part = Part(
    body: string,
    isCommand: bool,
    inQuotes: bool,
    inDoubleQuotes: bool,
    separator: bool,
    escaped: bool,
    redirect: bool,
    redirectId: string)

  /** `Part{Body: b}`. */
  function Word(b: string): Part {
    Part(b, false, false, false, false, false, false, "")
  }

  /** `Part{Body: b, InQuotes: true}`. */
  function SingleQuoted(b: string): Part {
    Part(b, false, true, false, false, false, false, "")
  }

  /** `Part{Body: b, InDoubleQuotes: true}`. */
  function DoubleQuoted(b: string): Part {
    Part(b, false, false, true, false, false, false, "")
  }

  /** `Part{Body: char, Escaped: true}`. */
  function EscapedChar(c: char): Part {
    Part([c], false, false, false, false, true, false, "")
  }

  /** `Part{Separator: true, Body: " "}`. */
  function Separator(): Part {
    Part(" ", false, false, false, true, false, false, "")
  }

  /**
   * `Part{Body: b, Redirect: r, RedirectId: id}`: a buffer flushed with the redirect
   * flag as it stands, by a space after `>` or by the flush after the loop.
   */
  function Flushed(b: string, r: bool, id: string): Part {
    Part(b, false, false, false, false, false, r, id)
  }

  /** The number of kind flags a part carries. */
  function KindCount(p: Part): nat {
    (if p.inQuotes then 1 else 0) + (if p.inDoubleQuotes then 1 else 0) +
    (if p.separator then 1 else 0) + (if p.escaped then 1 else 0) +
    (if p.redirect then 1 else 0)
  }

  /** No flag at all: a word the tokenizer flushed as plain text. */
  predicate IsPlain(p: Part) {
    KindCount(p) == 0
  }

  /** `Part.String`: the debugging form of a part; the first flag that is set decides the tag. */
  function PartString(p: Part): (r: string)
    ensures r != "SEP" ==> |r| > |p.body| && r[|r| - 1] == ')'
    ensures r != "SEP" ==> r[|r| - 1 - |p.body|..|r| - 1] == p.body
    ensures p.isCommand ==> "Cmd(" <= r
    ensures r == "SEP" ==> p.separator && !p.isCommand
  {
    if p.isCommand then "Cmd(" + p.body + ")"
    else if p.inQuotes then "'(" + p.body + ")"
    else if p.inDoubleQuotes then "\"(" + p.body + ")"
    else if p.escaped then "\\(" + p.body + ")"
    else if p.redirect then p.redirectId + ">(" + p.body + ")"
    else if p.separator then "SEP"
    else "Part(" + p.body + ")"
  }

  /** The local variables of `processParts` between two characters. */
  datatype LexState = LexState(
    token: string,
    parts: seq<Part>,
    inQuotes: bool,
    inDoubleQuotes: bool,
    toEscape: bool,
    redirect: bool,
    redirectId: string)

  /** The state before the first character. */
  function Init(): LexState {
    LexState("", [], false, false, false, false, "1")
  }

  /** A part list whose last element is a separator. */
  predicate EndsWithSeparator(parts: seq<Part>) {
    |parts| > 0 && parts[|parts| - 1].separator
  }

  /** One iteration of the character loop, in the order of the Go branches. */
  function Step(s: LexState, c: char): LexState {
    if c == '>' && !s.inQuotes && !s.inDoubleQuotes && !s.toEscape then
      // redirect: strip one trailing '1', flush the rest, clear the buffer
      var t := if |s.token| > 0 && s.token[|s.token| - 1] == '1' then s.token[..|s.token| - 1] else s.token;
      var id := if |s.token| > 0 && s.token[|s.token| - 1] == '1' then "1" else s.redirectId;
      var parts := if |t| > 0 then s.parts + [Word(t)] else s.parts;
      s.(redirect := true, redirectId := id, token := "", parts := parts)
    else if c == '\\' && !s.toEscape then
      s.(toEscape := true)
    else if s.toEscape then
      if s.inQuotes || s.inDoubleQuotes then
        var lit := if s.inDoubleQuotes && c in "$\"\\" then [c] else ['\\', c];
        s.(toEscape := false, token := s.token + lit)
      else
        var parts := if |s.token| > 0 then s.parts + [Word(s.token)] else s.parts;
        s.(toEscape := false, token := "", parts := parts + [EscapedChar(c)])
    else if c == '\'' && !s.inDoubleQuotes then
      if !s.inQuotes then s.(inQuotes := true)
      else s.(inQuotes := false, parts := s.parts + [SingleQuoted(s.token)], token := "")
    else if c == '"' && !s.inQuotes then
      if !s.inDoubleQuotes then s.(inDoubleQuotes := true)
      else s.(inDoubleQuotes := false, parts := s.parts + [DoubleQuoted(s.token)], token := "")
    else if c == ' ' then
      if s.inQuotes || s.inDoubleQuotes then s.(token := s.token + " ")
      else if s.redirect && !Blank(s.token) then
        // the redirect target is emitted, but the buffer is kept
        s.(redirect := false, parts := s.parts + [Flushed(s.token, true, s.redirectId)])
      else if Blank(s.token) then
        s.(parts := if EndsWithSeparator(s.parts) then s.parts else s.parts + [Separator()], token := "")
      else
        s.(parts := s.parts + [Word(s.token)], token := "")
    else
      s.(token := s.token + [c])
  }

  /** The state after the characters `cs`, folded from the left. */
  function Run(s: LexState, cs: string): LexState
    decreases |cs|
  {
    if |cs| == 0 then s else Step(Run(s, cs[..|cs| - 1]), cs[|cs| - 1])
  }

  /** Marks the first part as the command word. */
  function MarkCommand(parts: seq<Part>): seq<Part> {
    if |parts| == 0 then parts else parts[0 := parts[0].(isCommand := true)]
  }

  /** After the loop: flush a non-empty buffer, carrying the redirect flag, then mark the command. */
  function Finish(s: LexState): seq<Part> {
    var parts := if |s.token| > 0 then s.parts + [Flushed(s.token, s.redirect, s.redirectId)] else s.parts;
    MarkCommand(parts)
  }

  /** `processParts(raw)` as a function. */
  function Tokenize(raw: string): seq<Part> {
    Finish(Run(Init(), raw))
  }

  /** What every part list the tokenizer has emitted so far satisfies. */
  predicate PartsInvariant(parts: seq<Part>) {
    && (forall k :: 0 <= k < |parts| ==> KindCount(parts[k]) <= 1)
    && (forall k :: 0 <= k < |parts| ==> parts[k].separator ==> parts[k].body == " ")
    && (forall k :: 0 <= k < |parts| ==> parts[k].escaped ==> |parts[k].body| == 1)
    && (forall k :: 0 <= k < |parts| ==> parts[k].redirect ==> |parts[k].body| > 0 && parts[k].redirectId == "1")
    && (forall k :: 0 <= k < |parts| ==> IsPlain(parts[k]) ==> |parts[k].body| > 0)
    && (forall k :: 0 <= k < |parts| - 1 ==> !(parts[k].separator && parts[k + 1].separator))
  }

  /** The loop invariant of `processParts`: no part is marked as command yet. */
  predicate StateInvariant(s: LexState) {
    && PartsInvariant(s.parts)
    && (forall k :: 0 <= k < |s.parts| ==> !s.parts[k].isCommand)
    && s.redirectId == "1"
  }

  /** A finished part list: the invariant, and only the first part is the command word. */
  predicate WellFormed(parts: seq<Part>) {
    && PartsInvariant(parts)
    && (|parts| > 0 ==> parts[0].isCommand)
    && (forall k :: 0 < k < |parts| ==> !parts[k].isCommand)
  }

  /** The conditions under which appending one part keeps the invariant. */
  predicate FitsAfter(parts: seq<Part>, p: Part) {
    && KindCount(p) <= 1
    && !p.isCommand
    && (p.separator ==> p.body == " " && !EndsWithSeparator(parts))
    && (p.escaped ==> |p.body| == 1)
    && (p.redirect ==> |p.body| > 0 && p.redirectId == "1")
    && (IsPlain(p) ==> |p.body| > 0)
  }

  lemma AppendKeepsInvariant(s: LexState, p: Part)
    requires StateInvariant(s) && FitsAfter(s.parts, p)
    ensures StateInvariant(s.(parts := s.parts + [p]))
  {
    var parts := s.parts + [p];
    assert forall k :: 0 <= k < |s.parts| ==> parts[k] == s.parts[k];
  }

  lemma StepKeepsInvariant(s: LexState, c: char)
    requires StateInvariant(s)
    ensures StateInvariant(Step(s, c))
  {
    var t := s.token;
    if c == '>' && !s.inQuotes && !s.inDoubleQuotes && !s.toEscape {
      var t' := if |t| > 0 && t[|t| - 1] == '1' then t[..|t| - 1] else t;
      if |t'| > 0 { AppendKeepsInvariant(s, Word(t')); }
    } else if c == '\\' && !s.toEscape {
    } else if s.toEscape {
      if !(s.inQuotes || s.inDoubleQuotes) {
        if |t| > 0 {
          AppendKeepsInvariant(s, Word(t));
          AppendKeepsInvariant(s.(parts := s.parts + [Word(t)]), EscapedChar(c));
        } else {
          AppendKeepsInvariant(s, EscapedChar(c));
        }
      }
    } else if c == '\'' && !s.inDoubleQuotes {
      if s.inQuotes { AppendKeepsInvariant(s, SingleQuoted(t)); }
    } else if c == '"' && !s.inQuotes {
      if s.inDoubleQuotes { AppendKeepsInvariant(s, DoubleQuoted(t)); }
    } else if c == ' ' && !s.inQuotes && !s.inDoubleQuotes {
      if s.redirect && !Blank(t) {
        AppendKeepsInvariant(s, Flushed(t, true, s.redirectId));
      } else if Blank(t) {
        if !EndsWithSeparator(s.parts) { AppendKeepsInvariant(s, Separator()); }
      } else {
        AppendKeepsInvariant(s, Word(t));
      }
    }
  }

  lemma {:induction false} RunKeepsInvariant(s: LexState, cs: string)
    requires StateInvariant(s)
    ensures StateInvariant(Run(s, cs))
    decreases |cs|
  {
    if |cs| > 0 {
      RunKeepsInvariant(s, cs[..|cs| - 1]);
      StepKeepsInvariant(Run(s, cs[..|cs| - 1]), cs[|cs| - 1]);
    }
  }

  /**
   * Every part list the tokenizer returns is well formed: at most one kind
   * flag per part, separators hold " " and never come two in a row, escaped
   * parts hold one character, redirect parts carry id "1", and only the first
   * part is marked as the command word.
   */
  lemma MarkCommandWellFormed(parts: seq<Part>)
    requires PartsInvariant(parts)
    requires forall k :: 0 <= k < |parts| ==> !parts[k].isCommand
    ensures WellFormed(MarkCommand(parts))
  {
    if |parts| > 0 {
      var marked := MarkCommand(parts);
      assert forall k :: 0 <= k < |parts| ==> marked[k].body == parts[k].body && KindCount(marked[k]) == KindCount(parts[k]);
      assert forall k :: 0 <= k < |parts| ==> marked[k].(isCommand := false) == parts[k];
    }
  }

  lemma TokenizeWellFormed(raw: string)
    ensures WellFormed(Tokenize(raw))
  {
    var s := Run(Init(), raw);
    RunKeepsInvariant(Init(), raw);
    if |s.token| > 0 {
      AppendKeepsInvariant(s, Flushed(s.token, s.redirect, s.redirectId));
    }
    var parts := if |s.token| > 0 then s.parts + [Flushed(s.token, s.redirect, s.redirectId)] else s.parts;
    MarkCommandWellFormed(parts);
  }

  /** `processParts`: the character loop over the line. */
  method ProcessParts(raw: string) returns (parts: seq<Part>)
    ensures parts == Tokenize(raw)
    ensures WellFormed(parts)
  {
    var token := "";
    parts := [];
    var inQuotes := false;
    var inDoubleQuotes := false;
    var toEscape := false;
    var redirect := false;
    var redirectId := "1";

    for i := 0 to |raw|
      invariant LexState(token, parts, inQuotes, inDoubleQuotes, toEscape, redirect, redirectId)
                == Run(Init(), raw[..i])
    {
      ghost var before := LexState(token, parts, inQuotes, inDoubleQuotes, toEscape, redirect, redirectId);
      assert raw[..i + 1][..i] == raw[..i];
      assert Run(Init(), raw[..i + 1]) == Step(before, raw[i]);
      var c := raw[i];
      if c == '>' && !inQuotes && !inDoubleQuotes && !toEscape {
        redirect := true;
        if |token| > 0 {
          if token[|token| - 1] == '1' {
            token := token[..|token| - 1];
            redirectId := "1";
          }
        }
        if |token| > 0 {
          parts := parts + [Word(token)];
        }
        token := "";
        continue;
      }
      if c == '\\' && !toEscape {
        toEscape := true;
        continue;
      }
      if toEscape {
        toEscape := false;
        if inQuotes || inDoubleQuotes {
          if inDoubleQuotes && c in "$\"\\" {
            token := token + [c];
          } else {
            token := token + ['\\', c];
          }
          continue;
        }
        if |token| > 0 {
          parts := parts + [Word(token)];
          token := "";
        }
        parts := parts + [EscapedChar(c)];
        continue;
      }
      if c == '\'' && !inDoubleQuotes {
        if !inQuotes {
          inQuotes := true;
        } else {
          inQuotes := false;
          parts := parts + [SingleQuoted(token)];
          token := "";
        }
        continue;
      }
      if c == '"' && !inQuotes {
        if !inDoubleQuotes {
          inDoubleQuotes := true;
        } else {
          inDoubleQuotes := false;
          parts := parts + [DoubleQuoted(token)];
          token := "";
        }
        continue;
      }
      if c == ' ' {
        if inQuotes || inDoubleQuotes {
          token := token + " ";
        } else if redirect && !Blank(token) {
          redirect := false;
          parts := parts + [Flushed(token, true, redirectId)];
        } else {
          if Blank(token) {
            if |parts| == 0 || !parts[|parts| - 1].separator {
              parts := parts + [Separator()];
            }
          } else {
            parts := parts + [Word(token)];
          }
          token := "";
        }
        continue;
      }
      token := token + [c];
    }
    assert raw[..|raw|] == raw;
    if |token| > 0 {
      parts := parts + [Flushed(token, redirect, redirectId)];
    }
    if |parts| > 0 {
      parts := parts[0 := parts[0].(isCommand := true)];
    }
    TokenizeWellFormed(raw);
  }
}
