/**
 * The consumers of a part list: `echo`, which renders the parts after the
 * command word; `buildArgsFromParts`, which builds the argv of an external
 * command; and the redirect filter of `buildCommandArgs`, which removes the
 * redirect parts and picks the command's standard output.
 */
module Consumers {
  import opened GoStrings
  import opened Lexer

  /** Where a command's standard output goes. */
  datatype Sink = Console | File(path: string)

  /** The bodies of the parts, in order. */
  function Bodies(parts: seq<Part>): (r: seq<string>)
    ensures |r| == |parts|
    ensures forall k :: 0 <= k < |parts| ==> r[k] == parts[k].body
  {
    seq(|parts|, k requires 0 <= k < |parts| => parts[k].body)
  }

  /** The parts that satisfy `keep`, in their original order. */
  function Filter(parts: seq<Part>, keep: Part -> bool): seq<Part>
    decreases |parts|
  {
    if |parts| == 0 then []
    else Filter(parts[..|parts| - 1], keep) + (if keep(parts[|parts| - 1]) then [parts[|parts| - 1]] else [])
  }

  /** `buildArgsFromParts` keeps a single-quoted part first, then drops separators. */
  predicate InArgv(p: Part) { p.inQuotes || !p.separator }
  predicate NotSeparator(p: Part) { !p.separator }
  predicate IsRedirect(p: Part) { p.redirect }
  predicate NotRedirect(p: Part) { !p.redirect }

  /** Filtering a concatenation filters each side: the kept parts stay in order. */
  lemma {:induction false} FilterAppend(a: seq<Part>, b: seq<Part>, keep: Part -> bool)
    ensures Filter(a + b, keep) == Filter(a, keep) + Filter(b, keep)
    decreases |b|
  {
    if |b| == 0 {
      assert a + b == a;
    } else {
      var ab := a + b;
      assert ab[..|ab| - 1] == a + b[..|b| - 1];
      FilterAppend(a, b[..|b| - 1], keep);
    }
  }

  /** Two tests that agree on every part keep the same parts. */
  lemma {:induction false} FilterAgrees(parts: seq<Part>, f: Part -> bool, g: Part -> bool)
    requires forall k :: 0 <= k < |parts| ==> f(parts[k]) == g(parts[k])
    ensures Filter(parts, f) == Filter(parts, g)
    decreases |parts|
  {
    if |parts| > 0 {
      FilterAgrees(parts[..|parts| - 1], f, g);
    }
  }

  /** Every part carries at most one kind flag, as every part the tokenizer emits does. */
  predicate OneKindEach(parts: seq<Part>) {
    forall k :: 0 <= k < |parts| ==> KindCount(parts[k]) <= 1
  }

  /** Filtering keeps parts with one kind each: every kept part comes from the input. */
  lemma FilterOneKind(parts: seq<Part>, keep: Part -> bool)
    requires OneKindEach(parts)
    ensures OneKindEach(Filter(parts, keep))
  {
    var kept := Filter(parts, keep);
    forall k | 0 <= k < |kept|
      ensures KindCount(kept[k]) <= 1
    {
      FilterMembers(parts, keep, kept[k]);
    }
  }

  /**
   * When no single-quoted part is also a separator, as on every list the
   * tokenizer produces, the argv filter drops exactly the separators.
   */
  lemma ArgvDropsSeparators(parts: seq<Part>)
    requires OneKindEach(parts)
    ensures Filter(parts, InArgv) == Filter(parts, NotSeparator)
  {
    forall k | 0 <= k < |parts|
      ensures InArgv(parts[k]) == NotSeparator(parts[k])
    {
      assert KindCount(parts[k]) <= 1;
    }
    FilterAgrees(parts, InArgv, NotSeparator);
  }

  /** Filtering one more element of a prefix appends it when it is kept. */
  lemma FilterNext(parts: seq<Part>, i: nat, keep: Part -> bool)
    requires i < |parts|
    ensures Filter(parts[..i + 1], keep) == Filter(parts[..i], keep) + (if keep(parts[i]) then [parts[i]] else [])
  {
    assert parts[..i + 1][..i] == parts[..i];
  }

  /** The bodies of one more part. */
  lemma BodiesSnoc(parts: seq<Part>, p: Part)
    ensures Bodies(parts + [p]) == Bodies(parts) + [p.body]
  {
  }

  /** A kept first part stays first. */
  lemma FilterHead(parts: seq<Part>, keep: Part -> bool)
    requires |parts| > 0 && keep(parts[0])
    ensures |Filter(parts, keep)| > 0 && Filter(parts, keep)[0] == parts[0]
  {
    FilterAppend([parts[0]], parts[1..], keep);
    assert [parts[0]] + parts[1..] == parts;
    assert [parts[0]][..0] == [];
  }

  /** A part is kept exactly when it occurs in the input and satisfies `keep`. */
  lemma {:induction false} FilterMembers(parts: seq<Part>, keep: Part -> bool, p: Part)
    ensures p in Filter(parts, keep) <==> p in parts && keep(p)
    decreases |parts|
  {
    if |parts| > 0 {
      var init := parts[..|parts| - 1];
      FilterMembers(init, keep, p);
      assert parts == init + [parts[|parts| - 1]];
    }
  }

  /** The kept and the dropped parts together account for every part. */
  lemma {:induction false} FilterSplitsCount(parts: seq<Part>, keep: Part -> bool)
    ensures |Filter(parts, keep)| + |Filter(parts, p => !keep(p))| == |parts|
    decreases |parts|
  {
    if |parts| > 0 {
      FilterSplitsCount(parts[..|parts| - 1], keep);
    }
  }

  /** When every part satisfies `keep`, filtering changes nothing. */
  lemma {:induction false} FilterKeepsAll(parts: seq<Part>, keep: Part -> bool)
    requires forall k :: 0 <= k < |parts| ==> keep(parts[k])
    ensures Filter(parts, keep) == parts
    decreases |parts|
  {
    if |parts| > 0 {
      var init := parts[..|parts| - 1];
      assert forall k :: 0 <= k < |init| ==> init[k] == parts[k];
      FilterKeepsAll(init, keep);
      assert init + [parts[|parts| - 1]] == parts;
    }
  }

  /** A part that `echo` treats as a bare word: not escaped, quoted or a separator. */
  predicate EchoPlain(p: Part) {
    !p.escaped && !p.inQuotes && !p.inDoubleQuotes && !p.separator
  }

  /** The space `echo` writes after part `i`: only between two bare words. */
  function Gap(parts: seq<Part>, i: nat): string
    requires i < |parts|
  {
    if EchoPlain(parts[i]) && i + 1 < |parts| && EchoPlain(parts[i + 1]) then " " else ""
  }

  /** What `echo` writes for the parts from index `i` on. */
  function Rendered(parts: seq<Part>, i: nat): string
    decreases |parts| - i
  {
    if i >= |parts| then "" else parts[i].body + Gap(parts, i) + Rendered(parts, i + 1)
  }

  /** What the `echo` loop has written before reaching part `i`. */
  function RenderedBefore(parts: seq<Part>, i: nat): string
    requires i <= |parts|
  {
    if i <= 1 then "" else RenderedBefore(parts, i - 1) + parts[i - 1].body + Gap(parts, i - 1)
  }

  /** What was written before part `i` and what is written from it on make up the whole. */
  lemma {:induction false} RenderedSplit(parts: seq<Part>, i: nat)
    requires 1 <= i <= |parts|
    ensures RenderedBefore(parts, i) + Rendered(parts, i) == Rendered(parts, 1)
    decreases i
  {
    if i > 1 {
      RenderedSplit(parts, i - 1);
      var before, p := RenderedBefore(parts, i - 1), parts[i - 1].body + Gap(parts, i - 1);
      assert before + p + Rendered(parts, i) == before + (p + Rendered(parts, i));
    }
  }

  /** The whole output of `echo`: the parts after the command word, then a newline. */
  function EchoText(parts: seq<Part>): string {
    if |parts| <= 1 then "\n" else Rendered(parts, 1) + "\n"
  }

  /** `echo`: writes each part after the command word, with the spaces between bare words. */
  method Echo(parts: seq<Part>) returns (out: string)
    ensures out == EchoText(parts)
    ensures |parts| <= 1 ==> out == "\n"
  {
    if |parts| <= 1 {
      return "\n";
    }
    out := "";
    for i := 1 to |parts|
      invariant out == RenderedBefore(parts, i)
    {
      var part := parts[i];
      out := out + part.body;
      if part.escaped {
        continue;
      }
      if part.inQuotes || part.inDoubleQuotes || part.separator {
        continue;
      }
      if i + 1 < |parts| {
        var next := parts[i + 1];
        if !next.escaped && !next.inQuotes && !next.inDoubleQuotes && !next.separator {
          out := out + " ";
        }
      }
    }
    RenderedSplit(parts, |parts|);
    out := out + "\n";
  }

  /** `strings.Join` from the front: the first piece, a separator, then the rest. */
  lemma {:induction false} JoinFront(x: string, xs: seq<string>, sep: char)
    requires |xs| > 0
    ensures Join([x] + xs, sep) == x + [sep] + Join(xs, sep)
    decreases |xs|
  {
    var all := [x] + xs;
    var n := |xs|;
    assert all[..|all| - 1] == [x] + xs[..n - 1];
    if n > 1 {
      JoinFront(x, xs[..n - 1], sep);
    }
  }

  /** When every part is a bare word, `echo` writes the bodies after the first joined by single spaces. */
  lemma {:induction false} RenderedWords(parts: seq<Part>, i: nat)
    requires i < |parts|
    requires forall k :: i <= k < |parts| ==> EchoPlain(parts[k])
    ensures Rendered(parts, i) == Join(Bodies(parts[i..]), ' ')
    decreases |parts| - i
  {
    if i + 1 < |parts| {
      RenderedWords(parts, i + 1);
      var rest := Bodies(parts[i + 1..]);
      assert Bodies(parts[i..]) == [parts[i].body] + rest;
      JoinFront(parts[i].body, rest, ' ');
    } else {
      assert Bodies(parts[i..]) == [parts[i].body];
    }
  }

  /** `echo a b c` with bare words writes them joined by single spaces. */
  lemma EchoWords(parts: seq<Part>)
    requires |parts| > 1
    requires forall k :: 1 <= k < |parts| ==> EchoPlain(parts[k])
    ensures EchoText(parts) == Join(Bodies(parts[1..]), ' ') + "\n"
  {
    RenderedWords(parts, 1);
  }

  /** The bodies glued together with nothing between them. */
  function Concat(xs: seq<string>): string
    decreases |xs|
  {
    if |xs| == 0 then "" else xs[0] + Concat(xs[1..])
  }

  /**
   * When no part after the command word is a bare word (all quoted, escaped or
   * separators), `echo` writes their bodies with nothing inserted between them.
   */
  lemma {:induction false} RenderedNoWords(parts: seq<Part>, i: nat)
    requires i <= |parts|
    requires forall k :: i <= k < |parts| ==> !EchoPlain(parts[k])
    ensures Rendered(parts, i) == Concat(Bodies(parts[i..]))
    decreases |parts| - i
  {
    if i < |parts| {
      RenderedNoWords(parts, i + 1);
      assert Bodies(parts[i..])[1..] == Bodies(parts[i + 1..]);
    }
  }

  /** `buildArgsFromParts`: the argv of an external command. */
  method BuildArgsFromParts(parts: seq<Part>) returns (args: seq<string>)
    ensures args == Bodies(Filter(parts, InArgv))
  {
    args := [];
    for i := 0 to |parts|
      invariant args == Bodies(Filter(parts[..i], InArgv))
    {
      var part := parts[i];
      FilterNext(parts, i, InArgv);
      BodiesSnoc(Filter(parts[..i], InArgv), part);
      if part.inQuotes {
        args := args + [part.body];
      } else if part.separator {
        continue;
      } else {
        args := args + [part.body];
      }
    }
    assert parts[..|parts|] == parts;
  }

  /**
   * The redirect filter of `buildCommandArgs`: every redirect part is opened (and
   * truncated) in turn and becomes the standard output, so the last one wins; all
   * other parts are kept in order.
   */
  method BindRedirects(parts: seq<Part>) returns (kept: seq<Part>, stdout: Sink, truncated: seq<string>)
    ensures kept == Filter(parts, NotRedirect)
    ensures truncated == Bodies(Filter(parts, IsRedirect))
    ensures stdout == if |truncated| == 0 then Console else File(truncated[|truncated| - 1])
  {
    kept := [];
    stdout := Console;
    truncated := [];
    for i := 0 to |parts|
      invariant kept == Filter(parts[..i], NotRedirect)
      invariant truncated == Bodies(Filter(parts[..i], IsRedirect))
      invariant stdout == if |truncated| == 0 then Console else File(truncated[|truncated| - 1])
    {
      var part := parts[i];
      FilterNext(parts, i, NotRedirect);
      FilterNext(parts, i, IsRedirect);
      BodiesSnoc(Filter(parts[..i], IsRedirect), part);
      if part.redirect {
        truncated := truncated + [part.body];
        stdout := File(part.body);
      } else {
        kept := kept + [part];
      }
    }
    assert parts[..|parts|] == parts;
  }
}
