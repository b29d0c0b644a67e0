# A model of the codecrafters shell in Go

This project models the core of a small interactive shell, `app/main.go`. Each
input line goes through the same steps:

- it is split on single spaces into `Args`;
- it is tokenized by the character state machine `processParts` into a list of
  `Part` records;
- the redirect parts are stripped from that list and bound as the command's
  standard output;
- the main loop dispatches on the first part. A name in the builtin table runs
  the builtin (`echo`, `exit`, `type`, `exec`, `pwd`, `cd`). Any other name is
  looked up on the search path by `typeFn`, and the match it finds is run as an
  external process.

The modules follow the source:

- `GoStrings` (`go_strings.dfy`) holds the Go library functions the shell
  depends on: `strings.Split`, `Join`, `TrimSuffix`, `Replace`, `Index` and
  `unicode.IsSpace`.
- `Lexer` (`lexer.dfy`) holds `Part`, its `String` form, and the tokenizer.
  `Step` is one pass of the loop body and `Run` folds it over the line. The
  method `ProcessParts` is the loop itself, proved equal to `Tokenize`.
- `LexerProperties` (`lexer_properties.dfy`) states what the tokenizer does
  with spaces, quotes, escapes, redirects and plain words.
- `Consumers` (`consumers.dfy`) holds the code that reads a part list: `echo`,
  `buildArgsFromParts`, and the redirect filter of `buildCommandArgs`.
- `Paths` (`paths.dfy`) holds `processPath`, the path resolution behind `cd`.
- `Shell` (`shell.dfy`) holds the command layer:
  - the environment (`Env`) and `CommandArgs`, as classes;
  - `typeFn`, `changeDirectory` and the dispatch of the main loop, as methods.

  Each method is proved against a function (`TypeSpec`, `CdSpec`, `Respond`).
- `ShellProperties` (`shell_properties.dfy`) states the dispatch properties:
  - builtins shadow the search path, and the first match on the path wins;
  - a missing command is reported;
  - only `cd` changes the environment, and `PWD` stays absolute as long as
    `os.Stat` rejects the empty path;
  - only `echo` and spawned commands write to a redirect target.
- `EchoExamples` (`echo_examples.dfy`) proves the `echo` cases of
  `app/main_test.go` made of bare words and of several single-quoted segments:
  `echo hello`, `echo a b`, a run of spaces between two words, and adjacent and
  spaced quoted segments. Each is proved for any words and then for the test's
  own line.
- `EchoEscapeExamples` (`echo_escape_examples.dfy`) does the same for the
  remaining cases of `app/main_test.go`: `echo` alone, special characters, one
  single-quoted segment, double quotes, and backslash escapes inside and outside
  quotes.

What a command does to the outside world is modelled as a list of `Effect`
values:

- `Print` writes text to the console or to a redirect file;
- `Spawn` runs an executable with an argv;
- `Exit` ends the process.

`os.Stat` becomes a predicate parameter `stat`, true for the paths that exist. A
Go index that is out of range becomes the outcome `Panic`.

Two behaviours of the code are easy to misread:

- A name that is not found is reported by `typeFn` itself as `<name>: not found`
  (app/main.go:173). `unknownCommand`'s `<raw>: command not found`
  (app/main.go:222-224) runs only for the empty command word, which has its own
  entry in the table.
- `cd ..` taken k times from a path of exactly k components produces the empty
  path. `Paths.ResolvePath`, and everything built on it, follows the code.
  `Paths.ResolvePathIntended` is the evident intent, which gives `/` instead.
  This is logged under "## Findings" below.

## Model

| member | source | states |
|---|---|---|
| `GoStrings.TrimSuffix` | app/main.go:100 | removes the suffix exactly when the string ends with it (the result plus the suffix is the input); otherwise the input is unchanged |
| `GoStrings.Split` | app/main.go:374 | a split always has at least one piece |
| `GoStrings.JoinSplit` | app/main.go:90-91 | joining the pieces of a split with the same separator gives back the original string |
| `GoStrings.SplitPiecesFree` | app/main.go:90 | no piece of a split contains the separator |
| `GoStrings.SplitAfterLast` | app/main.go:90-91 | splitting `a + sep + b`, where `b` has no separator, gives the pieces of `a` followed by `b` |
| `GoStrings.SplitHead` | app/main.go:374 | the first piece is a separator-free prefix of the string: all of it when it is the only piece, otherwise followed by a separator |
| `GoStrings.ReplaceAll` | app/main.go:74 | the input is unchanged if the character is absent; a leading occurrence becomes the replacement; the character is gone when the replacement lacks it |
| `GoStrings.ReplaceAllAppend` | app/main.go:73-78 | replacing in `a + b` is replacing in `a` and in `b`, so every occurrence is replaced, wherever it is |
| `GoStrings.ReplaceAllOne` | app/main.go:73-78 | a single character becomes the replacement exactly when it is the one replaced |
| `GoStrings.IndexFrom` | app/main.go:92 | returns -1 or the first position at or after `from` where the pattern occurs, with no occurrence before it |
| `GoStrings.Index` | app/main.go:92 | returns -1 or the first position where the pattern occurs, with no earlier occurrence |
| `GoStrings.RemoveFirst` | app/main.go:92-94 | removes exactly the first occurrence of the pattern, or nothing when there is none |
| `Lexer.PartString` | app/main.go:238-258 | every form except `SEP` ends with the body in parentheses; a command part is tagged `Cmd(`; `SEP` is returned only for a separator that is not the command |
| `Lexer.AppendKeepsInvariant` | app/main.go:281 | appending a part that fits keeps the tokenizer invariant |
| `Lexer.StepKeepsInvariant` | app/main.go:270-350 | every branch of the loop body keeps the invariant: at most one kind flag per part, separators hold a single space and never come twice in a row, escaped parts hold one character, redirect parts carry id `1`, plain parts are not empty |
| `Lexer.RunKeepsInvariant` | app/main.go:270-351 | the invariant holds after any prefix of the line |
| `Lexer.MarkCommandWellFormed` | app/main.go:356-358 | marking the first part yields a well-formed list: only part 0 is the command word |
| `Lexer.TokenizeWellFormed` | app/main.go:260-360 | every part list `processParts` returns is well formed |
| `Lexer.ProcessParts` | app/main.go:260-360 | the imperative loop returns exactly the left fold of the transition function, and its result is well formed |
| `LexerProperties.RunAppend` | app/main.go:270 | tokenizing `a + b` is tokenizing `b` from the state left by `a` |
| `LexerProperties.SpaceRule` | app/main.go:328-349 | outside quotes a space does one of three things: it flushes a word, emits the redirect target and keeps the buffer, or adds at most one separator; a new trailing separator only follows a blank buffer |
| `LexerProperties.RedirectRule` | app/main.go:272-285 | an unquoted `>` sets the redirect flag, strips one trailing `1` from the buffer, flushes the rest as a word and empties the buffer |
| `LexerProperties.EscapeInSingleQuotes` | app/main.go:290-298 | inside single quotes a backslash and the next character are kept literally |
| `LexerProperties.InsideSingleQuotes` | app/main.go:308-350 | text without `'` or `\` inside single quotes is appended to the buffer verbatim, spaces included |
| `LexerProperties.InsideDoubleQuotes` | app/main.go:318-350 | text without `"` or `\` inside double quotes is appended to the buffer verbatim |
| `LexerProperties.SingleQuotedSegment` | app/main.go:308-317 | a whole `'...'` segment becomes one single-quoted part holding the pending buffer and the text |
| `LexerProperties.DoubleQuotedSegment` | app/main.go:318-327 | a whole `"..."` segment becomes one double-quoted part |
| `LexerProperties.OrdinaryText` | app/main.go:350 | ordinary characters outside quotes only extend the buffer |
| `LexerProperties.WordThenSpace` | app/main.go:343-346 | a word and a space, typed on an empty buffer, append the word as a plain part |
| `LexerProperties.NextWord` | app/main.go:343-350 | after a pending word, a space and another word flush the first and buffer the second |
| `LexerProperties.RunWords` | app/main.go:270-351 | a line of simple words joined by single spaces leaves all words but the last as plain parts and the last in the buffer |
| `LexerProperties.TokenizeJoined` | app/main.go:352-358 | for such a line the final flush emits the last word and the first part is marked |
| `LexerProperties.TokenizeWords` | app/main.go:260-360 | simple words joined by single spaces tokenize to one plain part per word, in order, with the first marked as the command |
| `LexerProperties.MarkCommandKeeps` | app/main.go:356-358 | marking the command changes no body and no kind flag, and sets the flag on part 0 |
| `LexerProperties.ArgsMatchParts` | app/main.go:374-375 | for such a line the raw `Args` split gives back the same words |
| `LexerProperties.OrdinarySplit` | app/main.go:374 | a word without spaces splits into itself |
| `LexerProperties.RunExtendsParts` | app/main.go:270-351 | the loop only ever appends parts: earlier parts are never changed |
| `LexerProperties.LeadingWord` | app/main.go:260-360 | a line that starts with a simple word followed by a space, or is that word alone, has that word as its first part, and the part is not a redirect |
| `LexerProperties.SpacesAfterSeparator` | app/main.go:335-342 | further spaces after a separator change nothing: a run of spaces yields one separator |
| `LexerProperties.EscapeStep` | app/main.go:286-305 | outside quotes, a backslash and the next character flush a non-empty buffer as a word and add exactly one escaped part holding the character; nothing else changes |
| `LexerProperties.DoubleQuotedEscapeStep` | app/main.go:290-298 | inside double quotes, a backslash and the next character add `DoubleQuotedEscape` of it to the buffer and leave the quote open |
| `LexerProperties.DoubleQuotedEscape` | app/main.go:291-296 | inside double quotes, `\$`, `\"` and `\\` keep only the character; before anything else the backslash stays |
| `LexerProperties.DoubleQuotedEscapeSegment` | app/main.go:290-327 | a whole `"a\cb"` segment becomes one double-quoted part holding `a`, the escape's text and `b` |
| `LexerProperties.SingleQuotedEscapeSegment` | app/main.go:290-317 | a whole `'a\cb'` segment becomes one single-quoted part that keeps the backslash |
| `LexerProperties.EscapedSpacesHead` | app/main.go:286-305 | the first of several escaped spaces flushes any pending word and becomes an escaped part |
| `LexerProperties.RunEscapedSpaces` | app/main.go:299-305 | `n` escaped spaces on an empty buffer become `n` escaped-space parts |
| `LexerProperties.EscapesAfterWord` | app/main.go:299-305 | escaped spaces after a word flush the word first, then add one escaped part per space |
| `LexerProperties.TwoSpaces` | app/main.go:335-342 | two spaces on an empty buffer, not after a separator, add exactly one separator |
| `Consumers.FilterAppend` | app/main.go:378-391 | filtering a concatenation filters each side, keeping the order |
| `Consumers.FilterNext` | app/main.go:379-388 | one more element of the input appends it to the output exactly when it is kept |
| `Consumers.FilterHead` | app/main.go:378-391 | a kept first part stays first |
| `Consumers.FilterMembers` | app/main.go:378-391 | a part is in the output exactly when it is in the input and is kept |
| `Consumers.FilterSplitsCount` | app/main.go:378-391 | the kept parts and the dropped parts together account for every part |
| `Consumers.FilterKeepsAll` | app/main.go:378-391 | when every part is kept, filtering changes nothing |
| `Consumers.RenderedSplit` | app/main.go:128-146 | what the loop has written before part `i`, followed by what it writes from `i` on, is the whole output |
| `Consumers.Echo` | app/main.go:123-149 | the loop writes every body after the command word, with a space only between two bare words, then a newline; with no arguments it writes just a newline |
| `Consumers.JoinFront` | app/main.go:128-146 | joining `[x] + xs` is `x`, a separator, then the join of `xs` |
| `Consumers.RenderedWords` | app/main.go:139-145 | bare words are written joined by single spaces |
| `Consumers.EchoWords` | app/main.go:123-149 | `echo` of bare words prints their bodies joined by single spaces |
| `Consumers.RenderedNoWords` | app/main.go:131-137 | quoted, escaped and separator parts are written back to back, with no space inserted |
| `Consumers.BuildArgsFromParts` | app/main.go:194-206 | the argv is the bodies, in order, of the parts that are single-quoted or not separators |
| `Consumers.FilterAgrees` | app/main.go:194-206 | two tests that agree on every part keep the same parts |
| `Consumers.ArgvDropsSeparators` | app/main.go:194-206 | when every part carries at most one kind flag, the argv test keeps exactly the parts that are not separators |
| `Consumers.FilterOneKind` | app/main.go:378-391 | dropping the redirect parts keeps every remaining part at one kind flag at most |
| `Consumers.BindRedirects` | app/main.go:378-391 | keeps the non-redirect parts in order, truncates every redirect target in order, and binds stdout to the last target (the console if there is none) |
| `Paths.DropLastComponentAt` | app/main.go:90-91 | dropping the last component of `a/b` gives `a` |
| `Paths.DropLastComponentSingle` | app/main.go:90-91 | a path without `/` drops to the empty path |
| `Paths.DropLastComponentPrefix` | app/main.go:90-91 | the result is always the prefix of the path before its last `/`, or empty when there is none |
| `Paths.StripDotsNotLeading` | app/main.go:92-97 | from `..x/../y` the step removes the second `..`, the first one followed by `/`, giving `..x/y` |
| `Paths.StripDots` | app/main.go:92-97 | removes the first `../` anywhere in the path, or else the first `..`, not necessarily the leading one; the path always gets shorter, so the loop ends |
| `Paths.Climb` | app/main.go:86-99 | the loop ends with no leading `..` left, or fails only while a `..` remains |
| `Paths.JoinPwdAsWritten` | app/main.go:100 | the source's join is empty exactly when both sides are empty; otherwise it is absolute whenever `PWD` is absolute or empty |
| `Paths.JoinPwd` | app/main.go:100 | the intended join: with an absolute or empty `PWD` the result is absolute, and it differs from the source's join only where that gives the empty path |
| `Paths.ResolvePath` | app/main.go:66-101 | `processPath` with the source's own join: an error returns the argument unchanged, and only for an argument that starts with `..` |
| `Paths.ResolvePathIntended` | app/main.go:66-101 | the intended `processPath` differs from the source only by giving `/` where the source gives the empty path, and fails exactly when the source fails |
| `Paths.ProcessPath` | app/main.go:66-101 | the imperative `..` loop computes `ResolvePath` of `PWD`, `HOME` and the argument |
| `Paths.ClimbKeepsPrefix` | app/main.go:86-99 | climbing only shortens `PWD` to a prefix of itself |
| `Paths.ReplaceLeading` | app/main.go:73-74 | replacing a leading `~` by an absolute `HOME` gives an absolute path |
| `Paths.RewrittenIsAbsolute` | app/main.go:69-79 | the `/`, `~` and `./` branches give an absolute path when `PWD` and `HOME` are absolute |
| `Paths.DotSlashReplacesEveryDot` | app/main.go:77-78 | `./a.b` becomes `PWD/a` + `PWD` + `b`: every `.` is replaced, not only the leading one |
| `Paths.TildeReplacesEveryTilde` | app/main.go:73-74 | `~/a~` becomes `HOME/a` + `HOME`: every `~` is replaced |
| `Paths.EmptyArgumentAtRoot` | app/main.go:81-100 | an empty argument from `/` resolves to the empty path as written, and to `/` as intended |
| `Paths.ResolvedIsAbsolute` | app/main.go:66-101 | with an absolute `PWD` and `HOME`, every path that resolves is absolute or, through the join at line 100, empty |
| `Paths.ResolvedIsAbsoluteIntended` | app/main.go:66-101 | with the intended join, every path that resolves is absolute |
| `Paths.ClimbOne` | app/main.go:86-99 | one `..` from `/c1/.../cn` drops `cn` |
| `Paths.ClimbWithin` | app/main.go:86-99 | `k` times `..` from a path with at least `k` components drops exactly the last `k` |
| `Paths.ClimbPastRoot` | app/main.go:86-89 | more `..` than components reaches the "nothing to go back to" error |
| `Paths.ResolveDots` | app/main.go:66-101 | `cd ../..` with k segments from `/c1/.../cn` strips k components when k < n, gives the empty path when k = n, and fails with the argument when k > n |
| `Paths.ResolveDotsIntended` | app/main.go:66-101 | as intended, the same three cases, except that k = n reaches `/` |
| `Paths.AbsTrimmed` | app/main.go:81-84 | a path built from components has no trailing `/` to trim |
| `Paths.ResolveWithin` | app/main.go:81-100 | the k < n case of `Paths.ResolveDots` |
| `Paths.ResolveToRootAsWritten` | app/main.go:81-100 | as the source computes it, the k = n case gives the empty path |
| `Paths.ResolveToRoot` | app/main.go:81-100 | with the intended join, the k = n case reaches `/` |
| `Paths.ResolvePastRoot` | app/main.go:86-89 | the k > n case: the error, returning the argument |
| `Paths.JoinAbs` | app/main.go:100 | the source's join of a non-empty absolute path with an empty rest gives the path back |
| `Paths.AbsNotRoot` | app/main.go:81-100 | a path built from at least one component is neither empty nor `/` |
| `Paths.DotsRelative` | app/main.go:69-79 | an argument of `..` segments passes none of the three prefix tests |
| `Paths.DotsClimb` | app/main.go:69-86 | an argument of `..` segments fails the three prefix tests and goes through the climbing loop |
| `Shell.FirstMatch` | app/main.go:162-171 | returns nothing exactly when no directory holds the name; otherwise returns `dir/name` for a directory `stat` accepts, with no earlier directory accepted |
| `Shell.SearchPath` | app/main.go:162-171 | the search loop returns the first match |
| `Shell.TypeSpec` | app/main.go:151-175 | the lookup never panics for a command word other than `type`; `type` panics exactly when it has no argument |
| `Shell.CdSpec` | app/main.go:103-121 | `changeDirectory` on the as-written `processPath`: either the environment is unchanged, or only `PWD` changes, silently, to a path `stat` accepts; with no argument nothing happens. The exact message and new `PWD` in each case are stated by `ShellProperties.CdInvalidPath`, `CdMissingDirectory` and `CdMoves` |
| `Shell.HandlerFor` | app/main.go:35-64 | the search path is used exactly for names outside the builtin table |
| `Shell.Argv` | app/main.go:194-213 | the spawned argv is never empty: the bodies of the argv parts when there are arguments and some part survives the filter, otherwise the executable alone, as `os/exec` does with an empty `cmd.Args` |
| `Shell.Parse` | app/main.go:362-394 | `Args` has at least one element, `Exe` starts empty, and no redirect part is left |
| `Shell.Env.constructor` | app/main.go:397-409 | the environment holds the initial variables |
| `Shell.CommandArgs.constructor` | app/main.go:362-394 | the fields are those of `Shell.Parse`; the truncated files are the redirect targets in order |
| `Shell.CommandArgs.TypeFn` | app/main.go:151-175 | the outcome and the new `Exe` are `Shell.TypeSpec` of the command word, the arguments, the search path and the old `Exe` |
| `Shell.CommandArgs.ChangeDirectory` | app/main.go:103-121 | the messages and the new environment are `Shell.CdSpec` of the arguments and the old environment |
| `Shell.CommandArgs.Dispatch` | app/main.go:426-440 | the outcome, the new `Exe` and the new environment are `Respond` of the line and the old environment |
| `Shell.RunLine` | app/main.go:424-440 | one pass of the main loop: the redirect targets are truncated, and then the dispatch's outcome and environment follow |
| `ShellProperties.FirstMatchAt` | app/main.go:162-171 | the match is in the first directory that holds the name |
| `ShellProperties.TypeBuiltinFirst` | app/main.go:153-160 | `type b` for a builtin `b` reports a shell builtin, whatever the search path holds |
| `ShellProperties.TypeFindsFirst` | app/main.go:162-170 | `type x` reports and records the first match on the search path |
| `ShellProperties.TypeNotFound` | app/main.go:173 | `type x` for a name found nowhere prints `x: not found` and records nothing |
| `ShellProperties.RawTypeIsCommandWord` | app/main.go:152-166 | when the raw first word is `type`, so is the command word |
| `ShellProperties.LeadingType` | app/main.go:374-391 | a line whose raw first piece is `type` has `type` as its first part |
| `ShellProperties.ExternalCommandRuns` | app/main.go:432-439 | a command word outside the table that is found on the path runs the first match silently, with the redirected stdout and with failures ignored |
| `ShellProperties.FoundCommandRuns` | app/main.go:432-439 | the same, for any line whose raw first word is not `type` |
| `ShellProperties.ExternalCommandMissing` | app/main.go:432-437 | a command word found nowhere prints `name: not found`; nothing runs and the environment is unchanged |
| `ShellProperties.NoCommandWordPanics` | app/main.go:426 | a line with no parts left panics without changing the environment; `>x` and a lone `'` are such lines |
| `ShellProperties.RedirectOnlyTokens` | app/main.go:260-360 | `>x` tokenizes to one part: the redirect target `x`, marked as the command |
| `ShellProperties.RedirectOnlyLeavesNoParts` | app/main.go:378-391 | parsing `>x` leaves no parts and binds stdout to the file `x` |
| `ShellProperties.LoneQuoteLeavesNoParts` | app/main.go:308-358 | a lone `'` opens a quote that never closes, so nothing is flushed and the line has no parts |
| `ShellProperties.ParsedArgvDropsSeparators` | app/main.go:194-206 | on the parts left after parsing, even when the command word was a redirect, the argv is the bodies of the parts that are not separators |
| `ShellProperties.OnlyCdChangesEnvironment` | app/main.go:103-121 | if the environment changes, the command was `cd` and only `PWD` changed, to a path that exists |
| `ShellProperties.CdInvalidPath` | app/main.go:108-112 | an argument that does not resolve is printed in the error and the environment is unchanged |
| `ShellProperties.CdMissingDirectory` | app/main.go:114-117 | a resolved path that does not exist is printed in the error and the environment is unchanged |
| `ShellProperties.CdMoves` | app/main.go:114-120 | a resolved path that exists becomes `PWD`, silently |
| `ShellProperties.CdPastRoot` | app/main.go:103-121 | `cd ../..` from `/a` prints `cd: ../..: No such file or directory` and stays put |
| `ShellProperties.CdToRootAsWritten` | app/main.go:103-121 | `cd ..` from `/home` resolves to the empty path, prints `cd: : No such file or directory` and stays put, instead of moving to `/` |
| `ShellProperties.CdKeepsAbsolute` | app/main.go:103-121 | `cd` with an absolute `PWD` and `HOME` leaves `PWD` absolute, as long as `stat` rejects the empty path |
| `ShellProperties.PwdStaysAbsolute` | app/main.go:426-440 | every command leaves an absolute `PWD` absolute, as long as `stat` rejects the empty path |
| `ShellProperties.TypeSpecConsole` | app/main.go:158-173 | the lookup prints only to the console |
| `ShellProperties.CdSpecConsole` | app/main.go:110-115 | `cd` prints only to the console |
| `ShellProperties.ExecSpawnsEmptyPath` | app/main.go:426-430 | an `exec` line spawns the empty path, whose failure panics, and leaves `Exe` and the environment as they were |
| `ShellProperties.RedirectOnlyForEcho` | app/main.go:123-149 | any message written to a redirect target comes from `echo` |
| `EchoExamples.EchoOfWords` | app/main_test.go:31-35 | `echo w1 ... wn` with simple words prints them joined by single spaces |
| `EchoExamples.EchoTwoWords` | app/main_test.go:31-35 | `echo a b` prints `a b` |
| `EchoExamples.EchoHello` | app/main_test.go:16-20 | `echo hello` prints `hello` |
| `EchoExamples.EchoQuoteRun` | app/main_test.go:41-45 | `echo 'a'` leaves the command word and one single-quoted part |
| `EchoExamples.TokenizeAdjacentQuotes` | app/main_test.go:46-50 | `echo 'a''b'` tokenizes to the command word and two adjacent single-quoted parts |
| `EchoExamples.TokenizeSpacedQuotes` | app/main_test.go:51-55 | `echo 'a' 'b'` puts one separator part between the two quoted parts |
| `EchoExamples.EchoAdjacentQuotes` | app/main_test.go:46-50 | two adjacent quoted segments print as one word |
| `EchoExamples.EchoSpacedQuotes` | app/main_test.go:51-55 | two quoted segments with a space between them print with one space |
| `EchoExamples.EchoAdjacentQuotesExample` | app/main_test.go:46-50 | `echo 'a b''c d'` prints `a bc d` |
| `EchoExamples.EchoSpacedQuotesExample` | app/main_test.go:51-55 | `echo 'a b' 'c d'` prints `a b c d` |
| `EchoExamples.EchoWordSpaces` | app/main_test.go:36-40 | a run of two or more spaces after a word adds exactly one separator |
| `EchoExamples.TokenizeSpaceRun` | app/main_test.go:36-40 | `echo a` + spaces + `b` tokenizes to the command, `a`, one separator and `b` |
| `EchoExamples.EchoSpaceRun` | app/main_test.go:36-40 | a run of spaces between two words prints as one space |
| `EchoExamples.EchoSpaceRunExample` | app/main_test.go:36-40 | `echo a        b` prints `a b` |
| `EchoEscapeExamples.RunThen` | app/main.go:270 | tokenizing `x + y` from the start continues from the state `x` leads to |
| `EchoEscapeExamples.MarkCommandFront` | app/main.go:356-358 | marking the command changes only the first part |
| `EchoEscapeExamples.EchoAlone` | app/main_test.go:21-25 | `echo` alone tokenizes to the command word and prints an empty line |
| `EchoEscapeExamples.EchoOneWord` | app/main_test.go:26-30 | `echo w`, for any word of ordinary characters, prints `w` |
| `EchoEscapeExamples.EchoSpecialCharacters` | app/main_test.go:26-30 | `echo !@#$%^&*()` prints `!@#$%^&*()` |
| `EchoEscapeExamples.EchoSingleQuoted` | app/main_test.go:41-45 | `echo 'a'` is one single-quoted part and prints `a`, spaces included |
| `EchoEscapeExamples.EchoSingleQuotedExample` | app/main_test.go:41-45 | `echo 'a b'` prints `a b` |
| `EchoEscapeExamples.EchoDoubleQuoteRun` | app/main_test.go:56-60 | `echo "a"` leaves the command word and one double-quoted part |
| `EchoEscapeExamples.EchoDoubleQuoted` | app/main_test.go:56-60 | `echo "a"` is one double-quoted part and prints `a` |
| `EchoEscapeExamples.EchoDoubleQuotedExample` | app/main_test.go:56-60 | `echo "a b"` prints `a b` |
| `EchoEscapeExamples.SpacedDoubleQuote` | app/main_test.go:61-65 | after any prefix that leaves an empty buffer and no trailing separator, two spaces and `"w"` add a separator and a double-quoted part |
| `EchoEscapeExamples.AdjacentDoubleQuote` | app/main_test.go:66-70 | a double-quoted segment on an empty buffer adds one double-quoted part |
| `EchoEscapeExamples.SpacedDoubleQuotesRun` | app/main_test.go:61-65 | the state after `echo "a"  "b"  "c"` holds the quoted parts with one separator between each |
| `EchoEscapeExamples.EchoSpacedDoubleQuotes` | app/main_test.go:61-65 | `echo "a"  "b"  "c"` prints `a b c`: each run of spaces is one separator and one space |
| `EchoEscapeExamples.RenderSpacedDoubleQuotes` | app/main_test.go:61-65 | quoted parts with separators between them print with one space each |
| `EchoEscapeExamples.EchoSpacedDoubleQuotesExample` | app/main_test.go:61-65 | `echo "bar"  "shell's"  "foo"` prints `bar shell's foo` |
| `EchoEscapeExamples.SpacedThenAdjacentDoubleQuotesRun` | app/main_test.go:66-70 | the state after `echo "a"  "b""c"`: a separator only between the first two quoted parts |
| `EchoEscapeExamples.EchoSpacedThenAdjacentDoubleQuotes` | app/main_test.go:66-70 | `echo "a"  "b""c"` prints `a bc`: spaces inside quotes are kept and adjacent segments join |
| `EchoEscapeExamples.RenderSpacedThenAdjacentDoubleQuotes` | app/main_test.go:66-70 | adjacent quoted parts print with nothing between them |
| `EchoEscapeExamples.EchoSpacedThenAdjacentExample` | app/main_test.go:66-70 | `echo "world  hello"  "example""script"` prints `world  hello examplescript` |
| `EchoEscapeExamples.EchoDoubleQuotedEscape` | app/main_test.go:71-75 | `echo "a\cb"` prints `a`, then `c` alone for `$`, `"` or `\` and `\c` otherwise, then `b` |
| `EchoEscapeExamples.EchoBackslashSpaceExample` | app/main_test.go:71-75 | `echo "before\   after"` prints `before\   after`: the backslash before a space is kept |
| `EchoEscapeExamples.RenderedEscapedSpace` | app/main_test.go:76-80 | an escaped space prints a space and no gap after it |
| `EchoEscapeExamples.RenderedSpaceEscapes` | app/main_test.go:76-80 | `m` escaped-space parts print exactly `m` spaces |
| `EchoEscapeExamples.EscapedSpacesRun` | app/main_test.go:76-80 | the state after `echo a\ ...\ b`: `a`, one escaped part per space, and `b` in the buffer |
| `EchoEscapeExamples.EchoEscapedSpaces` | app/main_test.go:76-80 | `echo a\ ...\ b` with `n` escaped spaces prints `a`, `n` spaces and `b` |
| `EchoEscapeExamples.RenderEscapedSpaces` | app/main_test.go:76-80 | the word, the escaped spaces and the last word print with nothing added between them |
| `EchoEscapeExamples.EchoEscapedSpacesExample` | app/main_test.go:76-80 | `echo world\ \ \ \ \ \ script` prints `world      script` |
| `EchoEscapeExamples.EchoSingleQuotedEscape` | app/main_test.go:81-85 | `echo 'a\cb'` keeps the backslash, whatever `c` is |
| `EchoEscapeExamples.EchoSingleQuotedBackslashExample` | app/main_test.go:81-85 | `echo 'shell\<newline>script'` prints the backslash and the newline as they stand |
| `EchoEscapeExamples.EchoBackslashLetterExample` | app/main_test.go:86-90 | `echo "hello'script'\n'world"` prints `hello'script'\n'world`: the backslash before `n` is kept |
| `EchoEscapeExamples.EscapedQuotesRun` | app/main_test.go:91-95 | the state after `echo "a\"b"c\"`: a double-quoted part with a literal `"`, the word `c` and an escaped `"` |
| `EchoEscapeExamples.EchoEscapedQuotes` | app/main_test.go:91-95 | `echo "a\"b"c\"` prints `a"bc"`: the escaped quote outside quotes joins the word before it |
| `EchoEscapeExamples.RenderEscapedQuotes` | app/main_test.go:91-95 | a quoted part, a word and an escaped part print back to back |
| `EchoEscapeExamples.EchoEscapedQuotesExample` | app/main_test.go:91-95 | `echo "hello\"insidequotes"script\"` prints `hello"insidequotesscript"` |

## Left out

- The read-eval loop: the prompt, reading stdin, `strings.TrimSpace` of the line and skipping empty lines (app/main.go:411-423). `RunLine` takes a trimmed, non-empty line.
- Start-up (app/main.go:397-409): reading `PATH`, `HOME` and the working directory from the process. The search path and the environment are parameters.
- `exit`: the `strconv.Atoi` parse and `os.Exit` are not modelled. The builtin yields an `Exit` effect that carries its arguments.
- `pwd` is modelled only as the `Print` of `PWD` inside `Respond`.
- The spawned process itself, its output and its exit status are not modelled; only its executable, argv and stdout are. `exec.Command`'s own argv fallback (the executable alone, when there are no arguments, or when every part is a separator and `buildArgsFromParts` returns nothing) is written out in `Argv` and in `Dispatch`. Whether it fails is not decided: `Spawn` records only whether a failure would panic (`exec`) or be ignored (the path lookup). For the `exec` builtin the executable is always the empty path, because only `typeFn` sets `Exe` and the dispatch calls it only for the path lookup (`ShellProperties.ExecSpawnsEmptyPath`). So `exec.Command("")` always fails, and an `exec` line always panics (app/main.go:216-218, 428-430).
- `os.OpenFile` for a redirect target is a list of truncated paths. Its failure, which panics, is not modelled.
- `os.Chdir` is not modelled: it changes the process directory, and nothing in the model reads that. Only `Env["PWD"]` is tracked.
- `Stderr`, `StartingDir`, the `Cmd` field and the `Cmds` table field are left out: no modelled code reads them. The builtin table is the constant `Builtins` and the function `HandlerFor`.
- Tab completion, raw terminal mode, `>>` and `2>` are not part of this model: the source does not have them.
- Go string indexing: `processParts` iterates runes, and a Dafny `string` is a sequence of code points, so both index the same units. The byte-level `token[len(token)-1]` at app/main.go:275 is modelled on code points, which agrees for the ASCII `1` it tests.
- `Shell.CommandArgs.TypeFn` requires a non-empty part list. In the source, `typeFn` reads `Parts[0]` unchecked, but its only caller, the dispatch, has already indexed `Parts[0]`. The dispatch models the empty case as a panic.
- `Lexer.PartString`: the `fmt` verbs are modelled as plain string concatenation.
- `ShellProperties.CdKeepsAbsolute` and `ShellProperties.PwdStaysAbsolute` assume that `stat` rejects the empty path, as `os.Stat("")` always does. Without that assumption, the empty path produced by the join at app/main.go:100 would be accepted as `PWD`.

## Findings

| source | as written | input that shows it | evidently intended | confidence | as-written member | corrected member |
|---|---|---|---|---|---|---|
| app/main.go:100 | after the `..` loop empties `pwd`, `TrimSuffix(pwd + "/" + "", "/")` is the empty path | `PWD=/home`, `cd ..`; or `PWD=/`, `cd  x`, whose argument is empty | the root `/`, so `cd ..` from a top-level directory reaches `/` | not executed | `Paths.ResolveToRootAsWritten` | `Paths.ResolveToRoot` |

The model follows the source: `Paths.ResolvePath` uses the join as written, and
`Paths.ResolveDots` proves that climbing `k` times from a path of exactly `k`
components gives the empty path. `ShellProperties.CdToRootAsWritten` shows the
effect on `cd`: it prints `cd: : No such file or directory` and stays put.
`Paths.ResolvePathIntended` is the corrected definition, using `Paths.JoinPwd`;
`Paths.ResolveToRoot` and `Paths.ResolveDotsIntended` prove that it reaches
`/`. `Paths.EmptyArgumentAtRoot` shows the second input under both definitions.
