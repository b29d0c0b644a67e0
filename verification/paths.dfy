/**
 * Path resolution for `cd` (`processPath`): absolute paths pass through, `~`
 * and `./` are rewritten by plain text replacement, and leading `..` segments
 * climb up `PWD` one component each.
 */
module Paths {
  import opened GoStrings

  /** The outcome of `processPath`: the resolved path, or the original path with an error. */
  datatype PathResult = Resolved(path: string) | Invalid(path: string)

  /** A Go map lookup: a missing key reads as the empty string. */
  function Get(env: map<string, string>, key: string): string {
    if key in env then env[key] else ""
  }

  /** `strings.Join(parts[:len(parts)-1], "/")` with `parts = strings.Split(pwd, "/")`. */
  function DropLastComponent(pwd: string): string {
    var parts := Split(pwd, '/');
    Join(parts[..|parts| - 1], '/')
  }

  /** Dropping the last component leaves exactly what came before the last `/`. */
  lemma DropLastComponentAt(a: string, b: string)
    requires '/' !in b
    ensures DropLastComponent(a + "/" + b) == a
  {
    SplitAfterLast(a, '/', b);
    var parts := Split(a + "/" + b, '/');
    assert parts[..|parts| - 1] == Split(a, '/');
    JoinSplit(a, '/');
  }

  /** Without any `/` there is nothing left after dropping the last component. */
  lemma DropLastComponentSingle(pwd: string)
    requires '/' !in pwd
    ensures DropLastComponent(pwd) == ""
  {
    JoinSplit(pwd, '/');
    SplitPiecesFree(pwd, '/');
    var parts := Split(pwd, '/');
    if |parts| > 1 {
      assert false;
    }
  }

  /** The last index of `c` in `s`, or -1. */
  function LastIndex(s: string, c: char): (r: int)
    ensures -1 <= r < |s|
    ensures r >= 0 ==> s[r] == c
    ensures forall j :: r < j < |s| ==> s[j] != c
    decreases |s|
  {
    if |s| == 0 then -1
    else if s[|s| - 1] == c then |s| - 1
    else LastIndex(s[..|s| - 1], c)
  }

  /** Dropping the last component always leaves a prefix of the path: the part before its last `/`. */
  lemma DropLastComponentPrefix(pwd: string)
    ensures DropLastComponent(pwd) <= pwd
    ensures '/' in pwd ==> DropLastComponent(pwd) == pwd[..LastIndex(pwd, '/')]
    ensures '/' !in pwd ==> DropLastComponent(pwd) == ""
  {
    var i := LastIndex(pwd, '/');
    if i >= 0 {
      assert pwd == pwd[..i] + "/" + pwd[i + 1..];
      var b := pwd[i + 1..];
      assert forall j :: 0 <= j < |b| ==> b[j] == pwd[i + 1 + j];
      DropLastComponentAt(pwd[..i], b);
    } else {
      assert forall c :: c in pwd ==> c != '/';
      DropLastComponentSingle(pwd);
    }
  }

  /**
   * One step of the `..` loop: removes the first `../` anywhere in the path, or the
   * first `..` when there is no `../`; the one removed need not be the leading one.
   */
  function StripDots(p: string): (r: string)
    requires ".." <= p
    ensures |r| < |p|
  {
    assert OccursAt(p, "..", 0);
    var t := RemoveFirst(p, "../");
    if t == p then RemoveFirst(p, "..") else t
  }

  /** `..x/../y` loses its second `..`, the first one followed by `/`, and becomes `..x/y`. */
  lemma StripDotsNotLeading(p: string)
    requires p == "..x/../y"
    ensures StripDots(p) == "..x/y"
  {
    assert OccursAt(p, "../", 4) by {
      assert p[4..7] == "../";
    }
    assert forall j :: 0 <= j < 4 ==> !OccursAt(p, "../", j) by {
      assert p[0..3] != "../" by { assert p[0..3][2] == 'x'; }
      assert p[1..4] != "../" by { assert p[1..4][0] == '.' && p[1..4][1] == 'x'; }
      assert p[2..5] != "../" by { assert p[2..5][0] == 'x'; }
      assert p[3..6] != "../" by { assert p[3..6][0] == '/'; }
    }
    assert Index(p, "../") == 4;
    assert RemoveFirst(p, "../") == p[..4] + p[7..];
    assert p[..4] + p[7..] == "..x/y";
  }

  /** The result of the `..` loop: the reduced `PWD` and the rest of the path, or too many `..`. */
  datatype Climbed = Climbed(pwd: string, rest: string) | TooHigh

  /** The `..` loop of `processPath`, one iteration per recursive call. */
  function Climb(pwd: string, rest: string): (r: Climbed)
    ensures r.TooHigh? ==> ".." <= rest
    ensures r.Climbed? ==> !(".." <= r.rest) && |r.rest| <= |rest|
    decreases |rest|
  {
    if !(".." <= rest) then Climbed(pwd, rest)
    else if pwd == "" then TooHigh
    else Climb(DropLastComponent(pwd), StripDots(rest))
  }

  /**
   * `strings.TrimSuffix(fmt.Sprintf("%v/%v", pwd, rest), "/")`, exactly as the source
   * joins: the result is empty exactly when both sides are, and otherwise starts with
   * `/` whenever `pwd` is absolute or empty.
   */
  function JoinPwdAsWritten(pwd: string, rest: string): (r: string)
    ensures r == "" <==> pwd == "" && rest == ""
    ensures (pwd == "" || "/" <= pwd) && r != "" ==> "/" <= r
  {
    var joined := pwd + "/" + rest;
    assert |joined| == |pwd| + 1 + |rest|;
    assert joined[|pwd|] == '/';
    assert pwd == "" || "/" <= pwd ==> joined[0] == '/';
    TrimSuffix(joined, "/")
  }

  /** The join with the root kept: climbing to `/` gives `/` rather than the empty path. */
  function JoinPwd(pwd: string, rest: string): (r: string)
    ensures pwd == "" || "/" <= pwd ==> "/" <= r
    ensures r != "/" ==> r == JoinPwdAsWritten(pwd, rest)
  {
    var joined := JoinPwdAsWritten(pwd, rest);
    if joined == "" then "/" else joined
  }

  /** An argument that none of the three prefix tests of `processPath` rewrites. */
  predicate Relative(path: string) {
    !("/" <= path) && !("~" <= path) && !("./" <= path)
  }

  /** `processPath` as a function of `PWD`, `HOME` and the argument, with the source's own join. */
  function ResolvePath(pwd: string, home: string, path: string): (r: PathResult)
    ensures r.Invalid? ==> r.path == path && ".." <= path
  {
    if "/" <= path then Resolved(path)
    else if "~" <= path then Resolved(ReplaceAll(path, '~', home))
    else if "./" <= path then Resolved(ReplaceAll(path, '.', pwd))
    else
      match Climb(TrimSuffix(pwd, "/"), path)
      case TooHigh => Invalid(path)
      case Climbed(p, rest) => Resolved(JoinPwdAsWritten(p, rest))
  }

  /**
   * `processPath` as evidently intended: climbing to the root gives `/`. It differs
   * from the source only where the source gives the empty path and this gives `/`.
   */
  function ResolvePathIntended(pwd: string, home: string, path: string): (r: PathResult)
    ensures r != Resolved("/") ==> r == ResolvePath(pwd, home, path)
    ensures r == Resolved("/") ==> ResolvePath(pwd, home, path) in {Resolved("/"), Resolved("")}
    ensures r.Invalid? <==> ResolvePath(pwd, home, path).Invalid?
  {
    if !Relative(path) then ResolvePath(pwd, home, path)
    else
      match Climb(TrimSuffix(pwd, "/"), path)
      case TooHigh => Invalid(path)
      case Climbed(p, rest) => Resolved(JoinPwd(p, rest))
  }

  /** `processPath`: rewrites a `cd` argument against `Env["PWD"]` and `Env["HOME"]`. */
  method ProcessPath(env: map<string, string>, path: string) returns (r: PathResult)
    ensures r == ResolvePath(Get(env, "PWD"), Get(env, "HOME"), path)
  {
    var newPath := path;
    if "/" <= newPath {
      return Resolved(newPath);
    }
    if "~" <= newPath {
      return Resolved(ReplaceAll(newPath, '~', Get(env, "HOME")));
    }
    if "./" <= newPath {
      return Resolved(ReplaceAll(newPath, '.', Get(env, "PWD")));
    }
    var pwd := Get(env, "PWD");
    if |pwd| > 0 && pwd[|pwd| - 1] == '/' {
      pwd := pwd[..|pwd| - 1];
    }
    assert pwd == TrimSuffix(Get(env, "PWD"), "/");
    while ".." <= newPath
      invariant Climb(pwd, newPath) == Climb(TrimSuffix(Get(env, "PWD"), "/"), path)
      decreases |newPath|
    {
      if pwd == "" {
        return Invalid(path);
      }
      var parts := Split(pwd, '/');
      pwd := Join(parts[..|parts| - 1], '/');
      assert OccursAt(newPath, "..", 0);
      var tentativePath := RemoveFirst(newPath, "../");
      if tentativePath == newPath {
        newPath := RemoveFirst(newPath, "..");
      } else {
        newPath := tentativePath;
      }
    }
    r := Resolved(JoinPwdAsWritten(pwd, newPath));
  }

  /** Climbing keeps `PWD` a prefix of what it was, so an absolute `PWD` stays absolute or empty. */
  lemma {:induction false} ClimbKeepsPrefix(pwd: string, rest: string)
    ensures Climb(pwd, rest).Climbed? ==> Climb(pwd, rest).pwd <= pwd
    decreases |rest|
  {
    if ".." <= rest && pwd != "" {
      DropLastComponentPrefix(pwd);
      ClimbKeepsPrefix(DropLastComponent(pwd), StripDots(rest));
    }
  }

  /** Replacing a leading character by an absolute path gives an absolute path. */
  lemma ReplaceLeading(s: string, c: char, prefix: string)
    requires |s| > 0 && s[0] == c && "/" <= prefix
    ensures "/" <= ReplaceAll(s, c, prefix)
  {
  }

  /** The three rewriting branches give an absolute path when `PWD` and `HOME` are absolute. */
  lemma RewrittenIsAbsolute(pwd: string, home: string, path: string)
    requires pwd == "" || "/" <= pwd
    requires "/" <= home
    requires !Relative(path)
    ensures "/" <= ResolvePath(pwd, home, path).path
  {
    if "/" <= path {
    } else if "~" <= path {
      ReplaceLeading(path, '~', home);
    } else if pwd == "" {
      assert ReplaceAll(path, '.', pwd) == ReplaceAll(path[1..], '.', pwd);
      assert path[1..][0] == '/';
    } else {
      ReplaceLeading(path, '.', pwd);
    }
  }

  /**
   * With an absolute (or missing) `PWD` and an absolute `HOME`, every path that
   * resolves is absolute or, through the source's join, empty.
   */
  lemma ResolvedIsAbsolute(pwd: string, home: string, path: string)
    requires pwd == "" || "/" <= pwd
    requires "/" <= home
    ensures var r := ResolvePath(pwd, home, path);
      r.Resolved? ==> r.path == "" || "/" <= r.path
  {
    if !Relative(path) {
      RewrittenIsAbsolute(pwd, home, path);
    } else {
      var start := TrimSuffix(pwd, "/");
      assert start == "" || "/" <= start;
      ClimbKeepsPrefix(start, path);
    }
  }

  /** With the intended join, every path that resolves is absolute: climbing all the way up gives `/`. */
  lemma ResolvedIsAbsoluteIntended(pwd: string, home: string, path: string)
    requires pwd == "" || "/" <= pwd
    requires "/" <= home
    ensures var r := ResolvePathIntended(pwd, home, path);
      r.Resolved? ==> "/" <= r.path
  {
    if !Relative(path) {
      RewrittenIsAbsolute(pwd, home, path);
    } else {
      var start := TrimSuffix(pwd, "/");
      assert start == "" || "/" <= start;
      ClimbKeepsPrefix(start, path);
    }
  }

  /**
   * An empty argument (`cd  x`, whose second piece is empty) from `/`: the source's
   * join gives the empty path, the intended one `/`.
   */
  lemma EmptyArgumentAtRoot(home: string)
    ensures ResolvePath("/", home, "") == Resolved("")
    ensures ResolvePathIntended("/", home, "") == Resolved("/")
  {
    assert TrimSuffix("/", "/") == "";
    assert Climb("", "") == Climbed("", "");
    assert "" + "/" + "" == "/";
  }

  /** `./` rewrites every `.` of the argument, not only the leading one, to `PWD`. */
  lemma DotSlashReplacesEveryDot(pwd: string, home: string)
    ensures ResolvePath(pwd, home, "./a.b") == Resolved(pwd + "/a" + pwd + "b")
  {
    assert "./a.b"[..1] == "." && "./a.b"[..2] == "./";
    assert ReplaceAll("./a.b", '.', pwd) == pwd + "/a" + pwd + "b" by {
      assert "./a.b" == "." + "/a" + "." + "b";
      ReplaceAllFour(".", "/a", ".", "b", '.', pwd);
      ReplaceAllOne('.', '.', pwd);
      assert '.' !in "/a" && '.' !in "b";
    }
  }

  /** `~` rewrites every `~` of the argument, not only the leading one, to `HOME`. */
  lemma TildeReplacesEveryTilde(pwd: string, home: string)
    ensures ResolvePath(pwd, home, "~/a~") == Resolved(home + "/a" + home)
  {
    assert "~/a~"[..1] == "~";
    assert ReplaceAll("~/a~", '~', home) == home + "/a" + home by {
      assert "~/a~" == "~" + "/a" + "~";
      ReplaceAllThree("~", "/a", "~", '~', home);
      ReplaceAllOne('~', '~', home);
      assert '~' !in "/a";
    }
  }

  /** Replacement distributes over a three-piece concatenation. */
  lemma ReplaceAllThree(a: string, b: string, c: string, from: char, to: string)
    ensures ReplaceAll(a + b + c, from, to) ==
      ReplaceAll(a, from, to) + ReplaceAll(b, from, to) + ReplaceAll(c, from, to)
  {
    ReplaceAllAppend(a + b, c, from, to);
    ReplaceAllAppend(a, b, from, to);
  }

  /** Replacement distributes over a four-piece concatenation. */
  lemma ReplaceAllFour(a: string, b: string, c: string, d: string, from: char, to: string)
    ensures ReplaceAll(a + b + c + d, from, to) ==
      ReplaceAll(a, from, to) + ReplaceAll(b, from, to) + ReplaceAll(c, from, to) + ReplaceAll(d, from, to)
  {
    ReplaceAllAppend(a + b + c, d, from, to);
    ReplaceAllThree(a, b, c, from, to);
  }

  /** An absolute path from its components: `/c1/c2/.../cn`, and `""` for none. */
  function Abs(cs: seq<string>): string
    decreases |cs|
  {
    if |cs| == 0 then "" else Abs(cs[..|cs| - 1]) + "/" + cs[|cs| - 1]
  }

  /** The argument `../../..` with `k` segments. */
  function Dots(k: nat): string
    requires k >= 1
  {
    if k == 1 then ".." else "../" + Dots(k - 1)
  }

  /** Components that make a well-formed absolute path. */
  predicate Components(cs: seq<string>) {
    forall k :: 0 <= k < |cs| ==> cs[k] != "" && '/' !in cs[k]
  }

  lemma StripDotsStep(k: nat)
    requires k >= 1
    ensures k == 1 ==> StripDots(Dots(k)) == ""
    ensures k > 1 ==> StripDots(Dots(k)) == Dots(k - 1)
  {
    if k == 1 {
      assert !OccursAt("..", "../", 0);
      assert Index("..", "../") == -1;
      assert OccursAt("..", "..", 0);
    } else {
      assert OccursAt(Dots(k), "../", 0);
    }
  }

  lemma DotsShape(k: nat)
    requires k >= 1
    ensures ".." <= Dots(k)
    ensures k > 1 ==> Dots(k) == "../" + Dots(k - 1)
  {
  }

  lemma ClimbStep(pwd: string, rest: string)
    requires ".." <= rest && pwd != ""
    ensures Climb(pwd, rest) == Climb(DropLastComponent(pwd), StripDots(rest))
  {
  }

  lemma ClimbDone(pwd: string)
    ensures Climb(pwd, "") == Climbed(pwd, "")
  {
  }

  lemma ClimbStuck(rest: string)
    requires ".." <= rest
    ensures Climb("", rest) == TooHigh
  {
  }

  /** One `..` from `/c1/.../cn` drops `cn`; the remaining `..` continue from there. */
  lemma ClimbOne(cs: seq<string>, k: nat)
    requires Components(cs) && |cs| > 0 && k >= 1
    ensures k == 1 ==> Climb(Abs(cs), Dots(k)) == Climbed(Abs(cs[..|cs| - 1]), "")
    ensures k > 1 ==> Climb(Abs(cs), Dots(k)) == Climb(Abs(cs[..|cs| - 1]), Dots(k - 1))
  {
    var n := |cs|;
    var front, last := cs[..n - 1], cs[n - 1];
    assert Abs(cs) == Abs(front) + "/" + last;
    DotsShape(k);
    ClimbStep(Abs(cs), Dots(k));
    DropLastComponentAt(Abs(front), last);
    StripDotsStep(k);
    if k == 1 {
      ClimbDone(Abs(front));
    }
  }

  lemma FrontComponents(cs: seq<string>)
    requires Components(cs) && |cs| > 0
    ensures Components(cs[..|cs| - 1])
  {
    var front := cs[..|cs| - 1];
    assert forall j :: 0 <= j < |front| ==> front[j] == cs[j];
  }

  lemma FrontComponentsN(cs: seq<string>, m: nat)
    requires Components(cs) && m <= |cs|
    ensures Components(cs[..m])
  {
    var front := cs[..m];
    assert forall j :: 0 <= j < |front| ==> front[j] == cs[j];
  }

  /** With at least `k` components, `k` times `..` drops exactly the last `k`. */
  lemma ClimbWithin(cs: seq<string>, k: nat)
    requires Components(cs) && 1 <= k <= |cs|
    ensures Climb(Abs(cs), Dots(k)) == Climbed(Abs(cs[..|cs| - k]), "")
    decreases k
  {
    var n := |cs|;
    if k == 1 {
      ClimbOne(cs, k);
    } else {
      var front := cs[..n - 1];
      FrontComponents(cs);
      ClimbWithin(front, k - 1);
      FrontSlice(cs, k);
      ClimbOne(cs, k);
    }
  }

  /** Dropping the last component, then k - 1 more, drops k components. */
  lemma FrontSlice(cs: seq<string>, k: nat)
    requires 1 < k <= |cs|
    ensures var front := cs[..|cs| - 1];
      front[..|front| - (k - 1)] == cs[..|cs| - k]
  {
  }

  /** With fewer than `k` components, `k` times `..` climbs past the root. */
  lemma ClimbPastRoot(cs: seq<string>, k: nat)
    requires Components(cs) && k > |cs| && k >= 1
    ensures Climb(Abs(cs), Dots(k)) == TooHigh
    decreases k
  {
    var n := |cs|;
    if n == 0 {
      DotsShape(k);
      ClimbStuck(Dots(k));
    } else {
      FrontComponents(cs);
      ClimbPastRoot(cs[..n - 1], k - 1);
      ClimbOne(cs, k);
    }
  }

  /**
   * `cd ../..` (k segments) from `/c1/.../cn`, as the source computes it: k trailing
   * components are stripped when k < n, the empty path comes out when k == n, and the
   * argument fails when k > n.
   */
  lemma ResolveDots(cs: seq<string>, home: string, k: nat)
    requires Components(cs) && k >= 1
    ensures k < |cs| ==> ResolvePath(Abs(cs), home, Dots(k)) == Resolved(Abs(cs[..|cs| - k]))
    ensures k == |cs| ==> ResolvePath(Abs(cs), home, Dots(k)) == Resolved("")
    ensures k > |cs| ==> ResolvePath(Abs(cs), home, Dots(k)) == Invalid(Dots(k))
  {
    if k < |cs| {
      ResolveWithin(cs, home, k);
    } else if k == |cs| {
      ResolveToRootAsWritten(cs, home);
    } else {
      ResolvePastRoot(cs, home, k);
    }
  }

  /**
   * `cd ../..` (k segments) from `/c1/.../cn` as intended: the same as the source,
   * except that k == n reaches `/`.
   */
  lemma ResolveDotsIntended(cs: seq<string>, home: string, k: nat)
    requires Components(cs) && k >= 1
    ensures k < |cs| ==> ResolvePathIntended(Abs(cs), home, Dots(k)) == Resolved(Abs(cs[..|cs| - k]))
    ensures k == |cs| ==> ResolvePathIntended(Abs(cs), home, Dots(k)) == Resolved("/")
    ensures k > |cs| ==> ResolvePathIntended(Abs(cs), home, Dots(k)) == Invalid(Dots(k))
  {
    if k < |cs| {
      ResolveWithin(cs, home, k);
      FrontComponentsN(cs, |cs| - k);
      AbsNotRoot(cs[..|cs| - k]);
    } else if k == |cs| {
      ResolveToRoot(cs, home);
    } else {
      ResolvePastRoot(cs, home, k);
    }
  }

  /** A path built from components has no trailing `/` to trim. */
  lemma AbsTrimmed(cs: seq<string>)
    requires Components(cs)
    ensures TrimSuffix(Abs(cs), "/") == Abs(cs)
  {
    if |cs| > 0 {
      var p, last := Abs(cs), cs[|cs| - 1];
      assert p[|p| - 1] != '/' by {
        assert p == Abs(cs[..|cs| - 1]) + "/" + last;
        assert p[|p| - 1] == last[|last| - 1];
        assert last[|last| - 1] in last;
      }
      assert p[|p| - 1..][0] == p[|p| - 1];
    }
  }

  /** `cd` with fewer `..` segments than components strips that many components. */
  lemma ResolveWithin(cs: seq<string>, home: string, k: nat)
    requires Components(cs) && 1 <= k < |cs|
    ensures ResolvePath(Abs(cs), home, Dots(k)) == Resolved(Abs(cs[..|cs| - k]))
  {
    AbsTrimmed(cs);
    DotsClimb(Abs(cs), home, k);
    ClimbWithin(cs, k);
    FrontComponentsN(cs, |cs| - k);
    JoinAbs(cs[..|cs| - k]);
  }

  /** As the source computes it, `cd` with as many `..` segments as components gives the empty path. */
  lemma ResolveToRootAsWritten(cs: seq<string>, home: string)
    requires Components(cs) && |cs| >= 1
    ensures ResolvePath(Abs(cs), home, Dots(|cs|)) == Resolved("")
  {
    AbsTrimmed(cs);
    DotsClimb(Abs(cs), home, |cs|);
    ClimbWithin(cs, |cs|);
    assert cs[..0] == [];
  }

  /** As intended, `cd` with as many `..` segments as components reaches `/`. */
  lemma ResolveToRoot(cs: seq<string>, home: string)
    requires Components(cs) && |cs| >= 1
    ensures ResolvePathIntended(Abs(cs), home, Dots(|cs|)) == Resolved("/")
  {
    AbsTrimmed(cs);
    DotsRelative(|cs|);
    ClimbWithin(cs, |cs|);
    assert cs[..0] == [];
  }

  /** `cd` with more `..` segments than components fails with the argument. */
  lemma ResolvePastRoot(cs: seq<string>, home: string, k: nat)
    requires Components(cs) && k > |cs| && k >= 1
    ensures ResolvePath(Abs(cs), home, Dots(k)) == Invalid(Dots(k))
  {
    AbsTrimmed(cs);
    DotsClimb(Abs(cs), home, k);
    ClimbPastRoot(cs, k);
  }

  /** A path built from at least one component is neither empty nor `/`. */
  lemma AbsNotRoot(cs: seq<string>)
    requires Components(cs) && |cs| > 0
    ensures |Abs(cs)| >= 2
  {
    assert Abs(cs) == Abs(cs[..|cs| - 1]) + "/" + cs[|cs| - 1];
  }

  /** Joining a non-empty absolute path with an empty rest gives the path back. */
  lemma JoinAbs(cs: seq<string>)
    requires Components(cs) && |cs| > 0
    ensures JoinPwdAsWritten(Abs(cs), "") == Abs(cs)
  {
    var p := Abs(cs);
    assert p + "/" + "" == p + "/";
    assert (p + "/")[..|p|] == p;
  }

  /** An argument of `..` segments passes none of the three prefix tests. */
  lemma DotsRelative(k: nat)
    requires k >= 1
    ensures Relative(Dots(k)) && ".." <= Dots(k)
  {
    var p := Dots(k);
    DotsShape(k);
    assert p[0] == '.' && p[1] == '.';
  }

  /** A `..` argument always goes through the climbing loop. */
  lemma DotsClimb(pwd: string, home: string, k: nat)
    requires k >= 1 && TrimSuffix(pwd, "/") == pwd
    ensures ResolvePath(pwd, home, Dots(k)) ==
      match Climb(pwd, Dots(k))
      case TooHigh => Invalid(Dots(k))
      case Climbed(p, rest) => Resolved(JoinPwdAsWritten(p, rest))
  {
    DotsRelative(k);
  }
}
