/**
 * The command layer of the shell: the environment shared by every command
 * line, the per-line `CommandArgs` built by `buildCommandArgs`, the `type` and
 * `cd` builtins, and the decision of the main loop between a builtin and an
 * executable found on the search path.
 *
 * What a command does to the outside world is a list of `Effect` values; the
 * file system is the predicate `stat`, true for the paths `os.Stat` accepts.
 */
module Shell {
  import opened GoStrings
  import opened Lexer
  import opened Consumers
  import opened Paths

  datatype Option<T> = None | Some(value: T)

  /** What a command does outside the shell, in order. */
  datatype Effect =
    | Print(to: Sink, text: string)
      /** Runs `exe` with `argv`; the shell panics on failure only when `panicOnError`. */
    | Spawn(exe: string, argv: seq<string>, stdout: Sink, panicOnError: bool)
      /** `os.Exit` with the status parsed from `args[1]`, or 0. */
    | Exit(args: seq<string>)

  /** How a command line ends: the effects it had, or a panic of the shell. */
  datatype Outcome = Continue(effects: seq<Effect>) | Panic(reason: string)

  /** The keys of the builtin command table `commands`, the empty name included. */
  const Builtins: set<string> := {"echo", "exit", "type", "exec", "pwd", "cd", ""}

  /** The message for a failing `cd`. */
  function NoSuchDirectory(p: string): Effect {
    Print(Console, "cd: " + p + ": No such file or directory\n")
  }

  /** The first `dir + "/" + target` over the search path that `stat` accepts. */
  function FirstMatch(target: string, path: seq<string>, stat: string -> bool): (r: Option<string>)
    ensures r.None? <==> forall i :: 0 <= i < |path| ==> !stat(path[i] + "/" + target)
    ensures r.Some? ==> exists i :: (0 <= i < |path| && r.value == path[i] + "/" + target && stat(r.value) &&
      forall j :: 0 <= j < i ==> !stat(path[j] + "/" + target))
    decreases |path|
  {
    if |path| == 0 then None
    else if stat(path[0] + "/" + target) then Some(path[0] + "/" + target)
    else
      var r := FirstMatch(target, path[1..], stat);
      assert forall i :: 1 <= i < |path| ==> path[1..][i - 1] == path[i];
      r
  }

  /** The search loop of `typeFn`. */
  method SearchPath(target: string, path: seq<string>, stat: string -> bool) returns (found: Option<string>)
    ensures found == FirstMatch(target, path, stat)
  {
    for i := 0 to |path|
      invariant FirstMatch(target, path, stat) == FirstMatch(target, path[i..], stat)
    {
      var filename := path[i] + "/" + target;
      if stat(filename) {
        return Some(filename);
      }
      assert path[i..][1..] == path[i + 1..];
    }
    return None;
  }

  /**
   * `typeFn` as a function: the outcome and the new `Exe`. The name looked up is
   * the command word, or the raw second argument when the command word is `type`.
   */
  function TypeSpec(command: string, args: seq<string>, path: seq<string>, exe: string, stat: string -> bool): (r: (Outcome, string))
    requires |args| > 0
    ensures command != "type" ==> r.0.Continue?
    ensures r.0.Panic? <==> command == "type" && |args| < 2
  {
    if command == "type" && |args| < 2 then (Panic("index out of range"), exe)
    else
      var target := if command == "type" then args[1] else command;
      if target in Builtins then (Continue([Print(Console, target + " is a shell builtin\n")]), exe)
      else match FirstMatch(target, path, stat)
        case Some(f) => (Continue(if args[0] == "type" then [Print(Console, target + " is " + f + "\n")] else []), f)
        case None => (Continue([Print(Console, target + ": not found\n")]), exe)
  }

  /**
   * `changeDirectory` as a function: what it prints and the new environment. Only
   * `PWD` ever changes, and only to a path that `stat` accepts.
   */
  function CdSpec(args: seq<string>, vars: map<string, string>, stat: string -> bool): (r: (seq<Effect>, map<string, string>))
    ensures r.1 == vars || ("PWD" in r.1 && r.1 == vars["PWD" := r.1["PWD"]] && stat(r.1["PWD"]) && r.0 == [])
    ensures |args| <= 1 ==> r == ([], vars)
  {
    if |args| <= 1 then ([], vars)
    else match ResolvePath(Get(vars, "PWD"), Get(vars, "HOME"), args[1])
      case Invalid(p) => ([NoSuchDirectory(p)], vars)
      case Resolved(p) => if stat(p) then ([], vars["PWD" := p]) else ([NoSuchDirectory(p)], vars)
  }

  /**
   * The argv of a spawned command: the parts' bodies when there are arguments and
   * some part survives the argv filter; otherwise `os/exec` falls back to the path
   * of the executable alone, since `cmd.Args` is empty.
   */
  function Argv(args: seq<string>, parts: seq<Part>, exe: string): (r: seq<string>)
    ensures |r| > 0
    ensures |args| <= 1 ==> r == [exe]
    ensures |args| > 1 ==> r == Bodies(Filter(parts, InArgv)) || (r == [exe] && Filter(parts, InArgv) == [])
  {
    var kept := Filter(parts, InArgv);
    if |args| > 1 && |kept| > 0 then Bodies(kept) else [exe]
  }

  /** The entry of `commands` a command word selects, or the search path when it has none. */
  datatype Handler = EchoBuiltin | ExitBuiltin | TypeBuiltin | ExecBuiltin | PwdBuiltin | CdBuiltin | UnknownBuiltin | PathLookup

  function HandlerFor(name: string): (h: Handler)
    ensures h.PathLookup? <==> name !in Builtins
  {
    match name
    case "echo" => EchoBuiltin
    case "exit" => ExitBuiltin
    case "type" => TypeBuiltin
    case "exec" => ExecBuiltin
    case "pwd" => PwdBuiltin
    case "cd" => CdBuiltin
    case "" => UnknownBuiltin
    case _ => PathLookup
  }

  /** The fields of `CommandArgs` that a command reads. */
  datatype Line = Line(raw: string, args: seq<string>, parts: seq<Part>, path: seq<string>, exe: string, stdout: Sink)

  /** `buildCommandArgs` as a function: the raw split, the parts without redirects, and the last redirect as stdout. */
  function Parse(raw: string, path: seq<string>): (l: Line)
    ensures |l.args| >= 1 && l.exe == ""
    ensures forall k :: 0 <= k < |l.parts| ==> !l.parts[k].redirect
  {
    var tokens := Tokenize(raw);
    var targets := Bodies(Filter(tokens, IsRedirect));
    var parts := Filter(tokens, NotRedirect);
    assert forall k :: 0 <= k < |parts| ==> !parts[k].redirect by {
      forall k | 0 <= k < |parts|
        ensures !parts[k].redirect
      {
        FilterMembers(tokens, NotRedirect, parts[k]);
      }
    }
    Line(raw, Split(raw, ' '), parts, path, "",
      if |targets| == 0 then Console else File(targets[|targets| - 1]))
  }

  /** What the dispatch leaves behind: the outcome, the new `Exe` and the new environment. */
  datatype Response = Response(outcome: Outcome, exe: string, vars: map<string, string>)

  /** The dispatch of the main loop as a function of the line and the environment. */
  function Respond(line: Line, vars: map<string, string>, stat: string -> bool): Response
    requires |line.args| > 0
  {
    if |line.parts| == 0 then Response(Panic("index out of range"), line.exe, vars)
    else
      var name := line.parts[0].body;
      match HandlerFor(name)
      case EchoBuiltin => Response(Continue([Print(line.stdout, EchoText(line.parts))]), line.exe, vars)
      case ExitBuiltin => Response(Continue([Exit(line.args)]), line.exe, vars)
      case TypeBuiltin =>
        var (o, e) := TypeSpec(name, line.args, line.path, line.exe, stat);
        Response(o, e, vars)
      case ExecBuiltin =>
        Response(Continue([Spawn(line.exe, Argv(line.args, line.parts, line.exe), line.stdout, true)]), line.exe, vars)
      case PwdBuiltin => Response(Continue([Print(Console, Get(vars, "PWD") + "\n")]), line.exe, vars)
      case CdBuiltin =>
        var (effects, vars') := CdSpec(line.args, vars, stat);
        Response(Continue(effects), line.exe, vars')
      case UnknownBuiltin => Response(Continue([Print(Console, line.raw + ": command not found\n")]), line.exe, vars)
      case PathLookup =>
        var (o, e) := TypeSpec(name, line.args, line.path, line.exe, stat);
        var spawned := if e != "" then [Spawn(e, Argv(line.args, line.parts, e), line.stdout, false)] else [];
        Response(Continue(o.effects + spawned), e, vars)
  }

  /** The environment map of the shell, shared by every command line. */
  class Env {
    var vars: map<string, string>

    constructor (initial: map<string, string>)
      ensures vars == initial
    {
      vars := initial;
    }
  }

  /** The state of one command line, built by `buildCommandArgs`. */
  class CommandArgs {
    const raw: string
    const args: seq<string>
    const path: seq<string>
    const env: Env
    var parts: seq<Part>
    var exe: string
    var stdout: Sink
    /** The redirect targets, each opened with truncation, in order. */
    var truncated: seq<string>

    /** The fields a command reads, as a value. */
    function Snapshot(): Line
      reads this
    {
      Line(raw, args, parts, path, exe, stdout)
    }

    /** The raw split always has a first element. */
    predicate Valid()
      reads this
    {
      |args| > 0
    }

    /** `buildCommandArgs`: split the line, tokenize it, and bind the redirects. */
    constructor (raw: string, path: seq<string>, env: Env)
      ensures Valid()
      ensures Snapshot() == Parse(raw, path)
      ensures this.env == env
      ensures truncated == Bodies(Filter(Tokenize(raw), IsRedirect))
    {
      this.raw := raw;
      this.path := path;
      this.env := env;
      args := Split(raw, ' ');
      var all := ProcessParts(raw);
      var kept, out, files := BindRedirects(all);
      parts := kept;
      stdout := out;
      truncated := files;
      exe := "";
    }

    /** `typeFn`: reports on a name and records the executable it finds in `Exe`. */
    method TypeFn(stat: string -> bool) returns (outcome: Outcome)
      requires Valid() && |parts| > 0
      modifies this`exe
      ensures (outcome, exe) == TypeSpec(parts[0].body, args, path, old(exe), stat)
    {
      var target := parts[0].body;
      if target == "type" {
        if |args| < 2 {
          return Panic("index out of range");
        }
        target := args[1];
      }
      if target in Builtins {
        return Continue([Print(Console, target + " is a shell builtin\n")]);
      }
      var found := SearchPath(target, path, stat);
      if found.Some? {
        exe := found.value;
        if args[0] == "type" {
          return Continue([Print(Console, target + " is " + found.value + "\n")]);
        }
        return Continue([]);
      }
      return Continue([Print(Console, target + ": not found\n")]);
    }

    /** `changeDirectory`: resolves the argument and moves `PWD` there if it exists. */
    method ChangeDirectory(stat: string -> bool) returns (effects: seq<Effect>)
      modifies env`vars
      ensures (effects, env.vars) == CdSpec(args, old(env.vars), stat)
    {
      if |args| <= 1 {
        return [];
      }
      var newDir := ProcessPath(env.vars, args[1]);
      if newDir.Invalid? {
        return [NoSuchDirectory(newDir.path)];
      }
      if !stat(newDir.path) {
        return [NoSuchDirectory(newDir.path)];
      }
      env.vars := env.vars["PWD" := newDir.path];
      return [];
    }

    /** The dispatch of the main loop: a builtin by name, else a search of the path and a spawn. */
    method Dispatch(stat: string -> bool) returns (outcome: Outcome)
      requires Valid()
      modifies this`exe, env`vars
      ensures Response(outcome, exe, env.vars) == Respond(old(Snapshot()), old(env.vars), stat)
    {
      if |parts| == 0 {
        return Panic("index out of range");
      }
      var name := parts[0].body;
      match HandlerFor(name)
      case EchoBuiltin =>
        var text := Echo(parts);
        outcome := Continue([Print(stdout, text)]);
      case ExitBuiltin =>
        outcome := Continue([Exit(args)]);
      case TypeBuiltin =>
        outcome := TypeFn(stat);
      case ExecBuiltin =>
        var argv := [exe];
        if |args| > 1 {
          argv := BuildArgsFromParts(parts);
          if |argv| == 0 {
            argv := [exe];
          }
        }
        outcome := Continue([Spawn(exe, argv, stdout, true)]);
      case PwdBuiltin =>
        outcome := Continue([Print(Console, Get(env.vars, "PWD") + "\n")]);
      case CdBuiltin =>
        var effects := ChangeDirectory(stat);
        outcome := Continue(effects);
      case UnknownBuiltin =>
        outcome := Continue([Print(Console, raw + ": command not found\n")]);
      case PathLookup =>
        outcome := TypeFn(stat);
        if exe != "" {
          var argv := [exe];
          if |args| > 1 {
            argv := BuildArgsFromParts(parts);
            if |argv| == 0 {
              argv := [exe];
            }
          }
          outcome := Continue(outcome.effects + [Spawn(exe, argv, stdout, false)]);
        }
    }
  }

  /** One pass of the main loop over a trimmed, non-empty line: build the command, then dispatch it. */
  method RunLine(raw: string, path: seq<string>, env: Env, stat: string -> bool) returns (truncated: seq<string>, outcome: Outcome)
    modifies env
    ensures truncated == Bodies(Filter(Tokenize(raw), IsRedirect))
    ensures var r := Respond(Parse(raw, path), old(env.vars), stat);
      outcome == r.outcome && env.vars == r.vars
  {
    var input := new CommandArgs(raw, path, env);
    truncated := input.truncated;
    outcome := input.Dispatch(stat);
  }
}
