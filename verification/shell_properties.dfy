/**
 * Properties of the command layer: the builtin table shadows the search path,
 * `type` reports the first match, the dispatch runs an external command
 * silently and reports a missing one, only `cd` touches the environment, and
 * only `echo` and spawned commands write to a redirect target.
 */
module ShellProperties {
  import opened GoStrings
  import opened Lexer
  import opened LexerProperties
  import opened Consumers
  import opened Paths
  import opened Shell

  /** The search stops at the first directory that holds the name. */
  lemma FirstMatchAt(target: string, path: seq<string>, stat: string -> bool, i: nat)
    requires i < |path| && stat(path[i] + "/" + target)
    requires forall j :: 0 <= j < i ==> !stat(path[j] + "/" + target)
    ensures FirstMatch(target, path, stat) == Some(path[i] + "/" + target)
  {
  }

  /** `type b` for a builtin `b` says so whatever the search path holds, and records nothing. */
  lemma TypeBuiltinFirst(args: seq<string>, path: seq<string>, exe: string, stat: string -> bool)
    requires |args| >= 2 && args[1] in Builtins
    ensures TypeSpec("type", args, path, exe, stat) == (Continue([Print(Console, args[1] + " is a shell builtin\n")]), exe)
  {
  }

  /** `type x` for a name on the search path reports and records the first match. */
  lemma TypeFindsFirst(args: seq<string>, path: seq<string>, exe: string, stat: string -> bool, i: nat)
    requires |args| >= 2 && args[0] == "type" && args[1] !in Builtins
    requires i < |path| && stat(path[i] + "/" + args[1])
    requires forall j :: 0 <= j < i ==> !stat(path[j] + "/" + args[1])
    ensures var f := path[i] + "/" + args[1];
      TypeSpec("type", args, path, exe, stat) == (Continue([Print(Console, args[1] + " is " + f + "\n")]), f)
  {
    FirstMatchAt(args[1], path, stat, i);
  }

  /** `type x` for a name found nowhere says `x: not found` and records nothing. */
  lemma TypeNotFound(args: seq<string>, path: seq<string>, exe: string, stat: string -> bool)
    requires |args| >= 2 && args[1] !in Builtins
    requires forall j :: 0 <= j < |path| ==> !stat(path[j] + "/" + args[1])
    ensures TypeSpec("type", args, path, exe, stat) == (Continue([Print(Console, args[1] + ": not found\n")]), exe)
  {
  }

  /**
   * When the raw first word of a line is `type`, so is the command word, so the
   * lookup of any other command word never prints the `is` report.
   */
  lemma RawTypeIsCommandWord(raw: string, path: seq<string>)
    requires Parse(raw, path).args[0] == "type"
    ensures var parts := Parse(raw, path).parts;
      |parts| > 0 && parts[0].body == "type"
  {
    ParseFields(raw, path);
    LeadingType(raw);
  }

  /** The fields of a parsed line, as `buildCommandArgs` sets them. */
  lemma ParseFields(raw: string, path: seq<string>)
    ensures Parse(raw, path).args == Split(raw, ' ')
    ensures Parse(raw, path).parts == Filter(Tokenize(raw), NotRedirect)
  {
  }

  /** A raw line whose first space-separated piece is `type` has `type` as its first part. */
  lemma LeadingType(raw: string)
    requires Split(raw, ' ')[0] == "type"
    ensures var parts := Filter(Tokenize(raw), NotRedirect);
      |parts| > 0 && parts[0].body == "type"
  {
    var w := "type";
    assert SimpleWord(w) by {
      assert !IsSpace(w[0]);
    }
    assert raw == w || w + " " <= raw by {
      SplitHead(raw, ' ');
      if |Split(raw, ' ')| > 1 {
        assert raw[..4] == w && raw[4] == ' ';
        assert raw[..5] == raw[..4] + [raw[4]];
      }
    }
    LeadingWord(raw, w);
    FilterHead(Tokenize(raw), NotRedirect);
  }

  /**
   * A command word that is not a builtin and is found on the search path runs
   * the first match with the redirected stdout, and prints nothing.
   */
  lemma ExternalCommandRuns(raw: string, path: seq<string>, vars: map<string, string>, stat: string -> bool, i: nat)
    requires var line := Parse(raw, path);
      |line.parts| > 0 && line.parts[0].body !in Builtins
    requires var name := Parse(raw, path).parts[0].body;
      && i < |path| && stat(path[i] + "/" + name)
      && forall j :: 0 <= j < i ==> !stat(path[j] + "/" + name)
    ensures var line := Parse(raw, path);
      var f := path[i] + "/" + line.parts[0].body;
      Respond(line, vars, stat) == Response(Continue([Spawn(f, Argv(line.args, line.parts, f), line.stdout, false)]), f, vars)
  {
    var line := Parse(raw, path);
    if line.args[0] == "type" {
      RawTypeIsCommandWord(raw, path);
    }
    FoundCommandRuns(line, vars, stat, i);
  }

  /** The lookup step for any line whose raw first word is not `type`. */
  lemma FoundCommandRuns(line: Line, vars: map<string, string>, stat: string -> bool, i: nat)
    requires |line.args| > 0 && line.args[0] != "type"
    requires |line.parts| > 0 && line.parts[0].body !in Builtins
    requires var name := line.parts[0].body;
      && i < |line.path| && stat(line.path[i] + "/" + name)
      && forall j :: 0 <= j < i ==> !stat(line.path[j] + "/" + name)
    ensures var f := line.path[i] + "/" + line.parts[0].body;
      Respond(line, vars, stat) == Response(Continue([Spawn(f, Argv(line.args, line.parts, f), line.stdout, false)]), f, vars)
  {
    var name := line.parts[0].body;
    var f := line.path[i] + "/" + name;
    FirstMatchAt(name, line.path, stat, i);
    assert f != "" by {
      assert |f| > |line.path[i]|;
    }
    assert [] + [Spawn(f, Argv(line.args, line.parts, f), line.stdout, false)] == [Spawn(f, Argv(line.args, line.parts, f), line.stdout, false)];
  }

  /**
   * A command word that is not a builtin and is found nowhere is reported as
   * `name: not found`; nothing is spawned and the environment is unchanged.
   */
  lemma ExternalCommandMissing(line: Line, vars: map<string, string>, stat: string -> bool)
    requires |line.args| > 0 && |line.parts| > 0 && line.exe == ""
    requires line.parts[0].body !in Builtins
    requires forall j :: 0 <= j < |line.path| ==> !stat(line.path[j] + "/" + line.parts[0].body)
    ensures Respond(line, vars, stat) == Response(Continue([Print(Console, line.parts[0].body + ": not found\n")]), "", vars)
  {
  }

  /**
   * A line left with no parts panics: `>x`, whose only part is the redirect target
   * that parsing removes, or a lone `'`, which never closes and flushes nothing.
   */
  lemma NoCommandWordPanics(line: Line, vars: map<string, string>, stat: string -> bool)
    requires |line.args| > 0 && |line.parts| == 0
    ensures Respond(line, vars, stat).outcome.Panic?
    ensures Respond(line, vars, stat).vars == vars
  {
  }

  /** `>x` tokenizes to one part: the redirect target `x`, marked as the command word. */
  lemma RedirectOnlyTokens(raw: string)
    requires raw == ">x"
    ensures Tokenize(raw) == [Flushed("x", true, "1").(isCommand := true)]
  {
    assert Run(Init(), raw) == Init().(redirect := true, token := "x") by {
      RunAppend(Init(), ">", "x");
      RunOne(Init(), '>');
      RunOne(Init().(redirect := true), 'x');
      assert ">" + "x" == raw;
    }
  }

  /** `>x`: the only part is the redirect target, so parsing leaves no parts and sends stdout to `x`. */
  lemma RedirectOnlyLeavesNoParts(raw: string, path: seq<string>)
    requires raw == ">x"
    ensures Parse(raw, path).parts == [] && Parse(raw, path).stdout == File("x")
  {
    var target := Flushed("x", true, "1").(isCommand := true);
    RedirectOnlyTokens(raw);
    assert [target][..0] == [];
    assert Filter([target], NotRedirect) == [];
    assert Filter([target], IsRedirect) == [target];
  }

  /** A lone `'` opens a quote that never closes: nothing is flushed and the line has no parts. */
  lemma LoneQuoteLeavesNoParts(raw: string, path: seq<string>)
    requires raw == "'"
    ensures Tokenize(raw) == [] && Parse(raw, path).parts == []
  {
    RunOne(Init(), '\'');
  }

  /** Only `cd` changes the environment, only its `PWD`, and only to a path that exists. */
  lemma OnlyCdChangesEnvironment(line: Line, vars: map<string, string>, stat: string -> bool)
    requires |line.args| > 0
    ensures var r := Respond(line, vars, stat);
      r.vars != vars ==>
        && |line.parts| > 0 && line.parts[0].body == "cd"
        && "PWD" in r.vars && r.vars == vars["PWD" := r.vars["PWD"]] && stat(r.vars["PWD"])
  {
    if |line.parts| > 0 {
      var name := line.parts[0].body;
      if HandlerFor(name).CdBuiltin? {
        assert name == "cd";
      } else {
        assert Respond(line, vars, stat).vars == vars;
      }
    }
  }

  /**
   * The parts handed to `buildArgsFromParts` carry one kind each, even when the
   * command word was a redirect that parsing removed, so the argv is the bodies of
   * the parts that are not separators.
   */
  lemma ParsedArgvDropsSeparators(raw: string, path: seq<string>)
    ensures var parts := Parse(raw, path).parts;
      Filter(parts, InArgv) == Filter(parts, NotSeparator)
  {
    TokenizeWellFormed(raw);
    FilterOneKind(Tokenize(raw), NotRedirect);
    ArgvDropsSeparators(Parse(raw, path).parts);
  }

  /** A `cd` whose argument does not resolve prints the argument in the message and changes nothing. */
  lemma CdInvalidPath(args: seq<string>, vars: map<string, string>, stat: string -> bool)
    requires |args| > 1 && ResolvePath(Get(vars, "PWD"), Get(vars, "HOME"), args[1]).Invalid?
    ensures CdSpec(args, vars, stat) == ([NoSuchDirectory(args[1])], vars)
  {
  }

  /** A `cd` to a resolved path that does not exist prints that path and changes nothing. */
  lemma CdMissingDirectory(args: seq<string>, vars: map<string, string>, stat: string -> bool, p: string)
    requires |args| > 1 && ResolvePath(Get(vars, "PWD"), Get(vars, "HOME"), args[1]) == Resolved(p)
    requires !stat(p)
    ensures CdSpec(args, vars, stat) == ([NoSuchDirectory(p)], vars)
  {
  }

  /** A `cd` to a resolved path that exists prints nothing and sets `PWD` to it. */
  lemma CdMoves(args: seq<string>, vars: map<string, string>, stat: string -> bool, p: string)
    requires |args| > 1 && ResolvePath(Get(vars, "PWD"), Get(vars, "HOME"), args[1]) == Resolved(p)
    requires stat(p)
    ensures CdSpec(args, vars, stat) == ([], vars["PWD" := p])
  {
  }

  /** `cd ../..` from `/a` climbs past the root: `cd: ../..: No such file or directory`. */
  lemma CdPastRoot(args: seq<string>, vars: map<string, string>, stat: string -> bool)
    requires args == ["cd", "../.."] && Get(vars, "PWD") == "/a"
    ensures CdSpec(args, vars, stat) == ([NoSuchDirectory("../..")], vars)
  {
    assert ResolvePath(Get(vars, "PWD"), Get(vars, "HOME"), args[1]).Invalid? by {
      var cs := ["a"];
      assert Abs(cs) == "/a" by {
        assert cs[..0] == [];
      }
      assert Dots(2) == "../..";
      ResolvePastRoot(cs, Get(vars, "HOME"), 2);
    }
    CdInvalidPath(args, vars, stat);
  }

  /**
   * `cd ..` from `/home`, as the source computes it: the path resolves to the empty
   * path, which `os.Stat` never accepts, so `cd` prints `cd: : No such file or
   * directory` and stays where it is instead of moving to `/`.
   */
  lemma CdToRootAsWritten(args: seq<string>, vars: map<string, string>, stat: string -> bool)
    requires args == ["cd", ".."] && Get(vars, "PWD") == "/home" && !stat("")
    ensures CdSpec(args, vars, stat) == ([NoSuchDirectory("")], vars)
  {
    assert ResolvePath(Get(vars, "PWD"), Get(vars, "HOME"), args[1]) == Resolved("") by {
      var cs := ["home"];
      assert Abs(cs) == "/home" by {
        assert cs[..0] == [];
      }
      assert Dots(1) == "..";
      ResolveToRootAsWritten(cs, Get(vars, "HOME"));
    }
    CdMissingDirectory(args, vars, stat, "");
  }

  /**
   * `cd` with an absolute `PWD` and `HOME` leaves `PWD` absolute, given that `os.Stat`
   * rejects the empty path the source's join can produce.
   */
  lemma CdKeepsAbsolute(args: seq<string>, vars: map<string, string>, stat: string -> bool)
    requires "/" <= Get(vars, "PWD") && "/" <= Get(vars, "HOME") && !stat("")
    ensures "/" <= Get(CdSpec(args, vars, stat).1, "PWD")
  {
    if |args| > 1 {
      ResolvedIsAbsolute(Get(vars, "PWD"), Get(vars, "HOME"), args[1]);
    }
  }

  /** With an absolute `PWD` and `HOME`, every command leaves `PWD` absolute. */
  lemma PwdStaysAbsolute(line: Line, vars: map<string, string>, stat: string -> bool)
    requires |line.args| > 0
    requires "/" <= Get(vars, "PWD") && "/" <= Get(vars, "HOME") && !stat("")
    ensures "/" <= Get(Respond(line, vars, stat).vars, "PWD")
  {
    var r := Respond(line, vars, stat);
    if |line.parts| > 0 && HandlerFor(line.parts[0].body).CdBuiltin? {
      CdKeepsAbsolute(line.args, vars, stat);
      assert r.vars == CdSpec(line.args, vars, stat).1;
    } else {
      assert r.vars == vars;
    }
  }

  /** Every message in `effects` goes to the console. */
  predicate ConsoleOnly(effects: seq<Effect>) {
    forall k :: 0 <= k < |effects| && effects[k].Print? ==> effects[k].to == Console
  }

  /** `type`, and the lookup of a command word, print only to the console. */
  lemma TypeSpecConsole(command: string, args: seq<string>, path: seq<string>, exe: string, stat: string -> bool)
    requires |args| > 0
    ensures var o := TypeSpec(command, args, path, exe, stat).0;
      o.Continue? ==> ConsoleOnly(o.effects)
  {
  }

  /** `cd` prints only to the console. */
  lemma CdSpecConsole(args: seq<string>, vars: map<string, string>, stat: string -> bool)
    ensures ConsoleOnly(CdSpec(args, vars, stat).0)
  {
  }

  /**
   * A redirect reaches only `echo` and spawned commands: every message of the
   * other builtins, and of the lookup, goes to the console.
   */
  lemma RedirectOnlyForEcho(line: Line, vars: map<string, string>, stat: string -> bool)
    requires |line.args| > 0
    ensures var o := Respond(line, vars, stat).outcome;
      o.Continue? ==>
        forall k :: 0 <= k < |o.effects| && o.effects[k].Print? && o.effects[k].to != Console ==>
          |line.parts| > 0 && line.parts[0].body == "echo"
  {
    var o := Respond(line, vars, stat).outcome;
    if |line.parts| > 0 && line.parts[0].body != "echo" && o.Continue? {
      var name := line.parts[0].body;
      match HandlerFor(name)
      case TypeBuiltin =>
        TypeSpecConsole(name, line.args, line.path, line.exe, stat);
      case CdBuiltin =>
        CdSpecConsole(line.args, vars, stat);
      case PathLookup =>
        TypeSpecConsole(name, line.args, line.path, line.exe, stat);
        var (t, e) := TypeSpec(name, line.args, line.path, line.exe, stat);
        var spawned := if e != "" then [Spawn(e, Argv(line.args, line.parts, e), line.stdout, false)] else [];
        assert o.effects == t.effects + spawned;
      case _ =>
    }
  }

  /**
   * `exec` spawns the `Exe` that parsing left empty: only `typeFn` sets it, and the
   * dispatch calls `typeFn` only for the path lookup. So the spawned path is always
   * empty, and since a failure of `exec` panics, so does every `exec` line.
   */
  lemma ExecSpawnsEmptyPath(raw: string, path: seq<string>, vars: map<string, string>, stat: string -> bool)
    requires var l := Parse(raw, path); |l.parts| > 0 && l.parts[0].body == "exec"
    ensures var l := Parse(raw, path);
      Respond(l, vars, stat) == Response(Continue([Spawn("", Argv(l.args, l.parts, ""), l.stdout, true)]), "", vars)
  {
  }
}
