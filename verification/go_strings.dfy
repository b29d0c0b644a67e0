/**
 * The few functions of Go's `strings` and `unicode` packages that the shell
 * relies on, stated over `string` (a sequence of Unicode scalar values, the
 * same units as Go's `[]rune`).
 */
module GoStrings {

  /** `unicode.IsSpace`: the Latin-1 spaces plus the other White_Space code points. */
  predicate IsSpace(c: char) {
    var n := c as int;
    n == 0x09 || n == 0x0A || n == 0x0B || n == 0x0C || n == 0x0D || n == 0x20 ||
    n == 0x85 || n == 0xA0 || n == 0x1680 || (0x2000 <= n <= 0x200A) ||
    n == 0x2028 || n == 0x2029 || n == 0x202F || n == 0x205F || n == 0x3000
  }

  /** `strings.TrimSpace(s) == ""`: the string holds white space only. */
  predicate Blank(s: string) {
    forall i :: 0 <= i < |s| ==> IsSpace(s[i])
  }

  /** `strings.TrimSuffix(s, suffix)`: drops one occurrence of `suffix` at the end. */
  function TrimSuffix(s: string, suffix: string): (r: string)
    ensures |suffix| <= |s| && s[|s| - |suffix|..] == suffix ==> r + suffix == s
    ensures !(|suffix| <= |s| && s[|s| - |suffix|..] == suffix) ==> r == s
  {
    if |suffix| <= |s| && s[|s| - |suffix|..] == suffix then s[..|s| - |suffix|] else s
  }

  /** `strings.Split(s, string(sep))`, built from the right end of `s`. */
  function Split(s: string, sep: char): (r: seq<string>)
    ensures |r| >= 1
    decreases |s|
  {
    if |s| == 0 then [""]
    else
      var pieces := Split(s[..|s| - 1], sep);
      if s[|s| - 1] == sep then pieces + [""]
      else pieces[..|pieces| - 1] + [pieces[|pieces| - 1] + [s[|s| - 1]]]
  }

  /** `strings.Join(xs, string(sep))`. */
  function Join(xs: seq<string>, sep: char): string
    decreases |xs|
  {
    if |xs| == 0 then ""
    else if |xs| == 1 then xs[0]
    else Join(xs[..|xs| - 1], sep) + [sep] + xs[|xs| - 1]
  }

  /** Joining the pieces of a split gives back the original string. */
  lemma {:induction false} JoinSplit(s: string, sep: char)
    ensures Join(Split(s, sep), sep) == s
    decreases |s|
  {
    if |s| > 0 {
      var init, c := s[..|s| - 1], s[|s| - 1];
      var pieces := Split(init, sep);
      JoinSplit(init, sep);
      assert init + [c] == s;
      if c == sep {
        JoinAppend(pieces, "", sep);
      } else {
        JoinExtendLast(pieces, c, sep);
      }
    }
  }

  /** Joining one more piece adds a separator and the piece. */
  lemma JoinAppend(xs: seq<string>, x: string, sep: char)
    requires |xs| > 0
    ensures Join(xs + [x], sep) == Join(xs, sep) + [sep] + x
  {
    assert (xs + [x])[..|xs|] == xs;
  }

  /** Extending the last piece extends the joined string. */
  lemma JoinExtendLast(xs: seq<string>, c: char, sep: char)
    requires |xs| > 0
    ensures Join(xs[..|xs| - 1] + [xs[|xs| - 1] + [c]], sep) == Join(xs, sep) + [c]
  {
    var n := |xs|;
    var front, last := xs[..n - 1], xs[n - 1];
    if n > 1 {
      JoinAppend(front, last + [c], sep);
      assert front + [last] == xs;
      JoinAppend(front, last, sep);
    }
  }

  /** No piece of a split contains the separator. */
  lemma {:induction false} SplitPiecesFree(s: string, sep: char)
    ensures forall k :: 0 <= k < |Split(s, sep)| ==> sep !in Split(s, sep)[k]
    decreases |s|
  {
    if |s| > 0 {
      SplitPiecesFree(s[..|s| - 1], sep);
    }
  }

  /** Splitting at a last separator: the final piece is exactly what follows it. */
  lemma {:induction false} SplitAfterLast(a: string, sep: char, b: string)
    requires sep !in b
    ensures Split(a + [sep] + b, sep) == Split(a, sep) + [b]
    decreases |b|
  {
    if |b| == 0 {
      assert a + [sep] + b == a + [sep];
      assert (a + [sep])[..|a|] == a;
    } else {
      var init := b[..|b| - 1];
      var s := a + [sep] + b;
      assert s[..|s| - 1] == a + [sep] + init;
      assert s[|s| - 1] == b[|b| - 1];
      SplitAfterLast(a, sep, init);
      assert init + [b[|b| - 1]] == b;
    }
  }

  /**
   * The first piece of a split is the text before the first separator: a prefix
   * of `s` without the separator, followed in `s` by the separator exactly when
   * there are further pieces, and all of `s` when there are none.
   */
  lemma {:induction false} SplitHead(s: string, sep: char)
    ensures var h := Split(s, sep)[0];
      && h <= s && sep !in h
      && (|Split(s, sep)| == 1 ==> h == s)
      && (|Split(s, sep)| > 1 ==> |h| < |s| && s[|h|] == sep)
    decreases |s|
  {
    if |s| > 0 {
      var init, c := s[..|s| - 1], s[|s| - 1];
      SplitHead(init, sep);
      assert init + [c] == s;
    }
  }

  /** `strings.Replace(s, string(from), to, -1)`: every `from` becomes `to`. */
  function ReplaceAll(s: string, from: char, to: string): (r: string)
    ensures from !in s ==> r == s
    ensures from !in to ==> from !in r
    ensures |s| > 0 && s[0] == from ==> to <= r
    ensures |s| > 0 && s[0] != from ==> |r| > 0 && r[0] == s[0]
    decreases |s|
  {
    if |s| == 0 then ""
    else (if s[0] == from then to else [s[0]]) + ReplaceAll(s[1..], from, to)
  }

  /**
   * Replacement works character by character: replacing in a concatenation replaces
   * in each side, so every occurrence, not only the first, becomes `to` and the other
   * characters keep their order.
   */
  lemma {:induction false} ReplaceAllAppend(a: string, b: string, from: char, to: string)
    ensures ReplaceAll(a + b, from, to) == ReplaceAll(a, from, to) + ReplaceAll(b, from, to)
    decreases |a|
  {
    if |a| == 0 {
      assert a + b == b;
    } else {
      assert (a + b)[0] == a[0];
      assert (a + b)[1..] == a[1..] + b;
      ReplaceAllAppend(a[1..], b, from, to);
    }
  }

  /** A single character is replaced exactly when it is `from`. */
  lemma ReplaceAllOne(c: char, from: char, to: string)
    ensures ReplaceAll([c], from, to) == if c == from then to else [c]
  {
    assert [c][1..] == [];
  }

  /** `pat` occurs in `s` at position `i`. */
  predicate OccursAt(s: string, pat: string, i: int) {
    0 <= i && i + |pat| <= |s| && s[i..i + |pat|] == pat
  }

  /** The first position at or after `from` where `pat` occurs, or -1. */
  function IndexFrom(s: string, pat: string, from: nat): (r: int)
    requires from <= |s|
    ensures r == -1 || (from <= r && OccursAt(s, pat, r))
    ensures forall j :: from <= j && (r == -1 || j < r) ==> !OccursAt(s, pat, j)
    decreases |s| - from
  {
    if from + |pat| > |s| then -1
    else if s[from..from + |pat|] == pat then from
    else IndexFrom(s, pat, from + 1)
  }

  /** `strings.Index(s, pat)`: the first position where `pat` occurs, or -1. */
  function Index(s: string, pat: string): (r: int)
    ensures r == -1 || OccursAt(s, pat, r)
    ensures forall j :: 0 <= j && (r == -1 || j < r) ==> !OccursAt(s, pat, j)
  {
    IndexFrom(s, pat, 0)
  }

  /** `strings.Replace(s, pat, "", 1)`: removes the first occurrence of a non-empty `pat`. */
  function RemoveFirst(s: string, pat: string): (r: string)
    requires |pat| > 0
    ensures Index(s, pat) == -1 ==> r == s
    ensures Index(s, pat) != -1 ==> |r| == |s| - |pat|
    ensures Index(s, pat) != -1 ==> r == s[..Index(s, pat)] + s[Index(s, pat) + |pat|..]
  {
    var i := Index(s, pat);
    if i == -1 then s else s[..i] + s[i + |pat|..]
  }
}
