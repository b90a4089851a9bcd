# shellax command-line core, modelled in Dafny

`shellax` (`skell.c`) is a small interactive shell. It reads one line at a time. It turns
the line into a chain of command records, one per pipeline stage, and runs the chain as
processes joined by pipes, with input and output redirected to files. This project models
the parts of that program that take decisions:

- `parse_command`: blank trimming, the trailing `&` and `?` flags, strtok tokenisation,
  `|` separators, `<` / `>` / `>>` redirect tokens, and quote stripping.
- The decisions of `process_command`:
  - the empty name, `exit` and `cd <dir>` are handled without forking;
  - the argument vector is rebuilt as `[name, args…, NULL]`;
  - the program is chosen: a built-in, a program found on the search path, or "command not found";
  - the redirect files are opened, with truncate winning over append;
  - later stages are started down the chain.
- `is_builtin` and `execute_builtin`.
- `resolve_command`: search each `PATH` directory in order for an entry with the exact name.
- `solve_uniq`: adjacent duplicate lines are folded into one, optionally prefixed by the run length.
- The trial-division loop of `solve_myfactor`.

Modules (one concept each):

| file | module | what it holds |
|---|---|---|
| `wrappers.dfy` | `Wrappers` | `Option` |
| `seq_facts.dfy` | `SeqFacts` | generic sequence facts and `Occurrences` |
| `tokenizer.dfy` | `Tokenizer` | strtok-style `Split`, trimming, `Join`, and the splitting lemmas |
| `commands.dfy` | `Commands` | the `Command` record, redirect slots, and token classification |
| `parser.dfy` | `Parser` | `Parse`, which follows `parse_command` line by line, including its re-parse of the raw remainder after a pipe token |
| `parser_spec.dfy` | `ParserSpec` | a token-level reference reading `Chain`, and the theorem `ParseIsChain` that the parser builds exactly it |
| `parser_props.dfy` | `ParserProperties` | consequences: blank lines, pipelines, flags, argument order |
| `builtins.dfy` | `Builtins` | the four built-in names and their dispatch |
| `resolver.dfy` | `Resolver` | the search-path lookup as a loop, and its reference `FirstMatch` |
| `executor.dfy` | `Executor` | the head-stage decision, argv, program choice, redirect opens, events down the chain |
| `uniq.dfy` | `UniqBuiltin` | the `uniq` loop, and the maximal-run reading of its output |
| `factor.dfy` | `FactorBuiltin` | the factoring loop, and prime-factorisation facts |
| `shell_props.dfy` | `ShellProperties` | whole-line facts: parse, then decide |

The outside world becomes parameters:
- The directory contents the resolver reads are a map from directory to its entries, in `readdir` order.
- The `PATH` value is a string.
- The error text of a failing `chdir` is an `Option<string>`.
- The lines `uniq` reads are a sequence of strings, each with its newline.
- The number `myfactor` factors is an integer.

Printed output is modelled as the sequence of printed pieces.

Where the specification and the code differ, the model follows the code:
- It searches every directory `PATH` names. The code's fixed array and its bound are undefined behaviour; see "Left out".
- `uniq` prints its last run with the last line read.

## Model

| member | source | states |
|---|---|---|
| Tokenizer.Trim | skell.c:94-100 | the line with its leading and trailing spaces and tabs removed |
| Tokenizer.Split | skell.c:107-126 | the tokens repeated `strtok` calls return: the maximal runs of non-delimiters, left to right, never an empty one |
| Tokenizer.SkipDelims | skell.c:94-98 | left trimming gives a string no longer than the input that is empty or starts with a non-blank |
| Tokenizer.TrimEnd | skell.c:99-100 | right trimming gives a string no longer than the input that is empty or ends in a non-blank |
| Tokenizer.SkipDelimsSplitsOff | skell.c:94-98 | the input is the removed prefix followed by the result, and the removed prefix is all blanks |
| Tokenizer.TrimEndSplitsOff | skell.c:99-100 | the input is the result followed by the removed suffix, and the removed suffix is all blanks |
| Tokenizer.Word | skell.c:107 | a token is no longer than the text it starts, and is non-empty when that text starts with a non-delimiter |
| Tokenizer.SplitTokens | skell.c:122-126 | every token strtok returns is non-empty and holds no delimiter |
| Tokenizer.WordPrefix | skell.c:107 | a token is a prefix of the text it is read from |
| Tokenizer.WordNoDelim | skell.c:107 | a token holds no delimiter |
| Tokenizer.WordIsWhole | skell.c:107 | text without delimiters is read as one whole token |
| Tokenizer.SplitHeadDelim | skell.c:122-126 | a leading delimiter does not change the tokens |
| Tokenizer.SplitHeadWord | skell.c:122-126 | text starting with a non-delimiter yields its first word, then the tokens of the rest |
| Tokenizer.WordAppend | skell.c:122-126 | text appended after a delimiter does not change the first token |
| Tokenizer.SplitAllDelims | skell.c:107-110 | a string of delimiters only has no tokens |
| Tokenizer.SplitDropLeading | skell.c:94-98 | leading delimiters do not change the tokens |
| Tokenizer.SplitAppend | skell.c:122-126 | splitting two texts that meet at a delimiter gives the first text's tokens followed by the second's |
| Tokenizer.SplitSkip | skell.c:94-98 | skipping leading blanks does not change the tokens |
| Tokenizer.SplitTrimEnd | skell.c:99-100 | removing trailing blanks does not change the tokens |
| Tokenizer.SplitTrim | skell.c:94-107 | trimming a line does not change its tokens |
| Tokenizer.LastTokenEnd | skell.c:102-107 | when a line ends in a non-delimiter, its last token ends in that same character |
| Tokenizer.TrimmedEnd | skell.c:102-105 | the trimmed line is empty exactly when there are no tokens; otherwise its last character is the last token's last character |
| Tokenizer.SplitJoin | skell.c:107-126 | tokens joined with a blank and split again come back unchanged |
| Commands.Kind | skell.c:143-188 | what a token after the name is: exactly the pipe token ends the stage, exactly `&` dropped, `<x` an input redirect, `>>x` an append, another `>x` a truncate, anything else an argument with its quotes stripped |
| Commands.Unquote | skell.c:181-188 | a token longer than two characters that starts and ends with the same quote character loses that pair |
| Commands.Absorb | skell.c:158-192 | a redirect token overwrites its slot, an argument is appended, `&` changes nothing |
| Commands.RedirectRoundTrip | skell.c:163-179 | a `<`, `>` or `>>` token is classified as its slot with the rest of the token as target; `>` before a `>` reads as append |
| Commands.UnquoteStripsPair | skell.c:181-188 | a non-empty argument wrapped in a matching pair of `"` or `'` loses exactly that pair |
| Commands.UnquoteKeepsUnwrapped | skell.c:181-188 | tokens of length 2 or less, and tokens whose ends are not one matching quote, stay verbatim |
| Commands.AbsorbEffect | skell.c:158-192 | a token other than the pipe token appends its argument, if it is one, and otherwise overwrites only its own redirect slot |
| Parser.Parse | skell.c:90-196 | `parse_command` on one line: trim, flags from the last character, first token as name, then the token loop; its meaning is `ParserSpec.ParseIsChain` |
| Parser.ParseArgs | skell.c:122-193 | the token loop: each token is absorbed until a pipe token hands the rest of the line, blanks skipped, to a fresh parse as the next stage; `ParserSpec.ParseArgsIsExtend` proves what it builds |
| Parser.TrimStartsWord | skell.c:94-107 | a non-empty trimmed line starts with a token character |
| ParserSpec.SepIndex | skell.c:143-156 | the stage ends at the first pipe token, or at the end of the tokens |
| ParserSpec.LastTargetSpec | skell.c:175-178 | a slot holds the target of a token for it that no later token for it follows, and is empty exactly when no token names it |
| ParserSpec.FlagsOfLine | skell.c:102-105 | `&` and `?` read off the trimmed line are the last character of the last token |
| ParserSpec.EndsInSuffix | skell.c:152 | the re-parsed remainder after a pipe token ends in the same token as the line, so it gets the same flags |
| ParserSpec.ExtendStepArgs | skell.c:189-192 | absorbing one token adds its argument at the end |
| ParserSpec.ExtendStepSlots | skell.c:175-178 | absorbing one token leaves the slots as the reference's for the longer token list |
| ParserSpec.ExtendStep | skell.c:158-192 | one step of the token loop agrees with the reference on one more token |
| ParserSpec.ParseArgsIsExtend | skell.c:122-193 | the token loop over the rest of the line builds the reference stage from those tokens |
| ParserSpec.ParseIsChain | skell.c:90-196 | `parse_command` builds exactly the reference chain: names, arguments in order, last-wins redirect slots, a next stage per pipe token, and the line's flags on every stage |
| ParserProperties.ParseIgnoresSurroundingBlanks | skell.c:94-100 | blanks before and after a line do not change what it parses to |
| ParserProperties.BlankLineIsEmptyCommand | skell.c:107-114 | a line of blanks parses to one command with the empty name, no arguments, no redirects and no flags |
| ParserProperties.HeadStage | skell.c:107-194 | the head's name is the first token; its arguments and redirects come only from its own tokens before the first pipe token; it has a next stage exactly when such a pipe token exists |
| ParserProperties.ChainFlags | skell.c:102-105 | every stage of the reference chain carries the given flags |
| ParserProperties.StageFlags | skell.c:102-105 | every stage is background exactly when the trimmed line ends in `&`, and auto-complete exactly when it ends in `?` |
| ParserProperties.PipesFollowedJoin | skell.c:144-155 | a stage followed by a pipe token and a well-formed rest is well-formed |
| ParserProperties.SepIndexJoin | skell.c:144 | the stage before a pipe token ends at that token |
| ParserProperties.TokensOfPipe | skell.c:144-152 | the tokens of x, a pipe token and y are those of x, then the pipe token, then those of y |
| ParserProperties.ChainOfPipe | skell.c:144-155 | a pipe token after a stage makes the reference chain of the rest that stage's next stage |
| ParserProperties.PipeSplitsLine | skell.c:144-155 | parsing x, a pipe token, then y gives the parse of x with the parse of y as next stage, and with y's flags |
| ParserProperties.StagePipesFollowedPlain | skell.c:143-156 | a stage with no pipe token is well-formed |
| ParserProperties.SepIndexNone | skell.c:143-156 | with no pipe token the stage runs to the end of the tokens |
| ParserProperties.WithPipesChain | skell.c:144-155 | the reference chain of names separated by pipe tokens has those names as its stages, in order, with no arguments or redirects |
| ParserProperties.WithPipesTokens | skell.c:122-126 | names separated by pipe tokens are valid tokens when the names are |
| ParserProperties.PipelineOfNames | skell.c:90-196 | names n1 … nk separated by pipe tokens parse to k stages named n1 … nk, in order, each with no arguments and no redirects |
| ParserProperties.ChainPipeCount | skell.c:143-155 | in the reference chain every pipe token either ends a stage or names the stage after one |
| ParserProperties.ChainNamesNoPipe | skell.c:143-155 | when no pipe token is first or follows another, no stage is named by a pipe token |
| ParserProperties.PipeCount | skell.c:90-196 | the pipe tokens of a line number one less than its stages plus the stages a pipe token names; in `a`, pipe, pipe, `b` the second pipe token names the second stage |
| ParserProperties.StageCount | skell.c:90-196 | when every pipe token stands between two other tokens, a line parses to one stage more than it has pipe tokens |
| ParserProperties.ArgsOfAppend | skell.c:189-192 | arguments keep the order of their tokens |
| ParserProperties.ArgsOfSkipsNonArguments | skell.c:158-179 | redirect tokens and `&` never become arguments |
| ParserProperties.TrailingAmpersandStaysInArgument | skell.c:102-105 | in `name arg&` the `&` sets background and also stays in the argument, since only a lone `&` token is dropped |
| ParserProperties.SingleArgumentChain | skell.c:181-192 | a name followed by one plain argument is a single stage with that argument |
| Builtins.IsBuiltin | skell.c:317-318 | `is_builtin`: the name is `uniq`, `chatroom`, `wiseman` or `myfactor` |
| Builtins.Dispatch | skell.c:437-446 | `execute_builtin`: the handler its chain of name comparisons reaches, or none |
| Builtins.DispatchAgrees | skell.c:317-318 | `is_builtin` holds exactly when `execute_builtin` runs a handler, and that handler has the same name |
| Builtins.DispatchByName | skell.c:437-446 | every built-in is reached by its own name |
| Resolver.SearchDirs | skell.c:503-513 | the directories `PATH` names: its `:`-separated fields in order, empty fields dropped |
| Resolver.FirstMatchIsFirst | skell.c:502-540 | the lookup gives `""` exactly when no directory lists the name; otherwise it gives `dir/name` for the first listing directory, in `PATH` order |
| Resolver.ResolveCommand | skell.c:502-540 | the two nested search loops compute the first-match lookup |
| Resolver.SearchDirsOfJoin | skell.c:503-513 | directories written out with `:` between them are read back unchanged |
| Resolver.SearchDirsOfDoubleColon | skell.c:506-513 | an empty `PATH` field is skipped and the order is kept |
| Executor.Classify | skell.c:323-336 | what is done with a stage before any fork: nothing for the empty name, quit for `exit`, an in-process `chdir` for `cd` with an argument, otherwise a fork |
| Executor.StepOf | skell.c:323-336 | the shell's step: the code is EXIT exactly for `exit`; it forks unless the name is empty, `exit`, or `cd` with an argument; it waits exactly for a forked non-background line; a failed `cd` prints a diagnostic |
| Executor.Argv | skell.c:348-356 | the argument vector the child passes on: the name, the arguments, then NULL |
| Executor.ArgvShape | skell.c:348-356 | argv is the name, then every argument in order, then NULL |
| Executor.BuildArgv | skell.c:348-356 | the grow, shift and fill loop of the child yields exactly that argv |
| Executor.ProgramOf | skell.c:357-362 | the program a forked stage runs: its built-in, else the resolved path, else none when the path is empty |
| Executor.ProgramOfSpec | skell.c:358-362 | a built-in runs without a search; any other name runs the first search hit, and is not found exactly when no directory lists it |
| Executor.RedirectOpens | skell.c:364-377 | the files opened before the stage runs: slot 0 onto stdin, then slot 1 onto stdout, or failing that slot 2 |
| Executor.RedirectOpensShape | skell.c:364-377 | slot 0 is opened onto stdin; at most one file is opened onto stdout, the truncate target when set, otherwise the append target; all are opened read-write with create |
| Executor.NotFoundMessage | skell.c:419 | the text printed for a name that is neither built in nor found |
| Executor.Events | skell.c:323-421 | what `process_command` leaves behind for each stage down the chain, stopping at an empty name, `exit`, `cd` with an argument, or a name not found |
| Executor.EventsCons | skell.c:379-417 | a stage that forks and finds its program runs, and the stages after its pipe follow |
| Executor.EventsTail | skell.c:379-406 | an event after the first belongs to the stages after the head, so the head forked, found its program and has a next stage |
| Executor.EventsCount | skell.c:379-424 | at most one event per stage; an empty name or `exit` starts nothing; only the last event can be a `cd` or a missing program, which stop the chain |
| Executor.EventsRan | skell.c:379-417 | the i-th started stage is the i-th stage of the chain, forked, with its own argv and redirects, and gets a pipe exactly when a stage follows it |
| Executor.EventsNotFound | skell.c:418-421 | a `command not found` event is the last one; it comes from a forked stage that is neither built in nor on the search path, and names that stage |
| Executor.EventsChangedDir | skell.c:329-335 | a change of directory is the last event; it comes from a `cd` stage with an argument, and its target is the first argument |
| Executor.AllStagesRun | skell.c:379-417 | when every stage forks and finds its program, every stage runs, in order |
| UniqBuiltin.PrintsCount | skell.c:450 | counts are printed when the argument vector has at least three entries and its second is `-c` or `--count` |
| UniqBuiltin.Runs | skell.c:456-472 | the runs of equal adjacent lines, built one line at a time; `UniqBuiltin.RunsExpand` and `UniqBuiltin.MaximalRunsUnique` prove they are the maximal-run reading of the input |
| UniqBuiltin.Step | skell.c:457-466 | one line read: an equal line lengthens the last run, any other starts a run of one |
| UniqBuiltin.Format | skell.c:460-464 | one printed run: `%d %s` of the count and the line with counts, the line alone without |
| UniqBuiltin.Render | skell.c:456-477 | the printed runs, one formatted line per run, in order |
| UniqBuiltin.RunsSize | skell.c:456-472 | there are no more runs than lines, and no runs exactly when there are no lines |
| UniqBuiltin.Decimal | skell.c:461 | the digits `%d` prints for a count, here and at line 474; there is at least one |
| UniqBuiltin.Uniq | skell.c:449-478 | with the count flag read off the argument vector, `uniq` prints one formatted line per maximal run of equal adjacent lines, in order |
| UniqBuiltin.PrintRuns | skell.c:451-477 | the reading loop prints one formatted line per maximal run of equal adjacent lines, in order, the last one after the input ends |
| UniqBuiltin.RunsNext | skell.c:456-472 | each line read takes the runs one step further |
| UniqBuiltin.FirstRun | skell.c:457-458 | the first line read starts a run of one |
| UniqBuiltin.GrowRun | skell.c:457-458 | a line equal to the previous one lengthens the last run by one |
| UniqBuiltin.StartRun | skell.c:459-466 | a line different from the previous one leaves the last run finished and starts a run of one |
| UniqBuiltin.RenderSnoc | skell.c:460-464 | printing one more finished run adds its formatted line after the ones printed before |
| UniqBuiltin.RunsExpand | skell.c:453-466 | the runs spell out the input again, and adjacent runs hold different lines |
| UniqBuiltin.RunsStep | skell.c:455-462 | one step keeps the runs maximal and adds the line to what they spell out |
| UniqBuiltin.GrowExpand | skell.c:455-456 | lengthening the last run adds one copy of its line |
| UniqBuiltin.GrowMaximal | skell.c:455-456 | lengthening the last run keeps the runs maximal |
| UniqBuiltin.StartExpand | skell.c:457-462 | a new run of one adds its line |
| UniqBuiltin.StartMaximal | skell.c:457-462 | a different line starts a run that keeps the runs maximal |
| UniqBuiltin.ExpandSnoc | skell.c:453-466 | a run appended at the end spells out after the runs before it |
| UniqBuiltin.ExpandLength | skell.c:455-462 | the run counts add up to the number of lines read |
| UniqBuiltin.MaximalRunsUnique | skell.c:456-477 | maximal runs are determined by the input, so the output is the one maximal-run reading of it |
| UniqBuiltin.ExpandEmpty | skell.c:456-472 | maximal runs spell out no lines exactly when there are none |
| UniqBuiltin.ExpandFront | skell.c:456-472 | dropping the last run drops exactly its lines from the end of what the runs spell out |
| UniqBuiltin.ExpandTail | skell.c:456-472 | what the runs spell out ends in as many copies of the last run's line as its count |
| UniqBuiltin.MaximalFront | skell.c:456-472 | the runs before the last one are maximal too |
| UniqBuiltin.ExpandLast | skell.c:456-472 | the last line spelled out is the last run's line |
| UniqBuiltin.LastRunBound | skell.c:457-466 | of two maximal readings of the same lines that end in runs of the same line, the second's last run is no longer than the first's |
| UniqBuiltin.DecimalRoundTrip | skell.c:474 | the count printed by `%d`, here and at line 461, reads back as the run length |
| UniqBuiltin.UniqExample | skell.c:449-478 | `a a b` prints `a b`, or `2 a` then `1 b` with counts |
| FactorBuiltin.Factor | skell.c:489-500 | the number is printed first; for n >= 2 the rest are its prime factors, non-decreasing, with product n; 1 prints only itself; a number below 1 is printed twice |
| FactorBuiltin.StartProgress | skell.c:490-492 | before the loop, nothing is divided out and the input is the rest |
| FactorBuiltin.DivideOut | skell.c:494-496 | dividing the rest by its smallest factor shrinks it, keeps the printed factors times the rest equal to the input, keeps the factors sorted primes, and brings back no smaller factor |
| FactorBuiltin.Finish | skell.c:492-499 | a rest other than 1 left when the loop ends is prime and at least every printed factor, so printing it completes the factorisation |
| FactorBuiltin.FinishOne | skell.c:492-499 | a rest of 1 leaves the printed factors as the whole factorisation |
| FactorBuiltin.SmallestFactorIsPrime | skell.c:492-494 | the first divisor the trial loop meets is prime |
| FactorBuiltin.QuotientBounds | skell.c:496 | `n /= d` on a multiple leaves a positive, smaller number |
| ShellProperties.BlankLineDoesNothing | skell.c:323-324 | a blank line makes the shell carry on without forking, and starts no stage |
| ShellProperties.ExitLineQuits | skell.c:325-326 | a line whose first word is `exit` returns EXIT, forks nothing and starts no stage |
| ShellProperties.CdWithArgument | skell.c:327-334 | `cd dir …` changes directory inside the shell and starts nothing else; a failure prints `-shellax: cd: <reason>` |
| ShellProperties.CdStep | skell.c:327-334 | the step and events of a `cd` with an argument |
| ShellProperties.BareCdIsForked | skell.c:327-336 | a bare `cd` is forked and searched on `PATH` like any program, and is reported as not found when no directory lists it |
| ShellProperties.WaitsUnlessBackground | skell.c:422-426 | the shell waits for the head stage exactly when it forks one and the line does not end in `&` |
| ShellProperties.HeadOutputFile | skell.c:369-377 | the head's stdout file is its last `>` target, opened to truncate; failing that, its last `>>` target, opened to append; with neither, no file is opened |
| ShellProperties.UniqCountFlag | skell.c:450 | `uniq` in a stage prints counts exactly when that stage's first argument is `-c` or `--count` |

Proof helpers have no row: they are facts about sequences and arithmetic and model no line of
`skell.c`. They are the `SeqFacts` lemmas, `UniqBuiltin.RepeatLength`, `FactorBuiltin.ProductSnoc`,
`FactorBuiltin.Regroup`, `FactorBuiltin.MulMonotone`, `FactorBuiltin.MulNonPositive`,
`FactorBuiltin.MulBelow`, `FactorBuiltin.MultipleMod` and `FactorBuiltin.DivUnique`.
The same goes for the unfolding lemmas `ParserProperties.NamesOfStages` and
`ParserProperties.OccurrencesSkip`.

## Left out

- The line editor `prompt` (raw terminal mode, echo, backspace, history, tab as `?`), `show_prompt`, `print_command` and `free_command`. They are I/O and memory management outside the core.
- The prompt loop's behaviour at end of input is not modelled.
- `fork`, `pipe`, `dup2`, `close`, `execv`, `wait`, `chdir` and `open` are not modelled as system calls. The model records what would be opened, run, piped or waited for, not the effects.
- Descriptor wiring between stages is not modelled. A redirect is applied before the pipe fork, so an output redirect on an earlier stage is also inherited by the stages after it.
- `open` failures and the missing mode argument of `open` with `O_CREAT` are not modelled.
- The directory contents are data; `.` and `..` are ordinary entries.
- `getenv("PATH")` returning NULL is not modelled: `PATH` is a string.
- The fixed buffers are not modelled: `temp_buf[1024]` for tokens, `malloc(1024)` for the resolved path, and `paths[32]`.
- The resolver's loop bound `sizeof(paths)` counts bytes, not entries, so the C code reads uninitialised and out-of-range slots. The model searches exactly the directories `PATH` names.
- Pipe nodes come from `malloc` and are not cleared, so the fields `parse_command` does not set (false flags, empty redirect slots, `next`) start indeterminate. The model gives them the zero values the head node gets from `memset`.
- Parser.Parse: a line whose last token is `|` is excluded by `WellFormed`. The C code then rewrites the string's terminator and reads past it, or, with blanks after the `|`, builds an empty next stage.
- UniqBuiltin.Uniq: empty input is excluded. The C code then prints a NULL line with count 0.
- UniqBuiltin.PrintRuns: empty input is excluded, as for `Uniq`.
- UniqBuiltin.PrintRuns: the last run is printed with the last line read. The C code prints its buffer after `getline` has reported end of input, and the C library does not promise that buffer's contents.
- UniqBuiltin.PrintRuns: lines are compared as whole strings. A NUL byte inside a line, which `strcmp` and `printf` stop at, is not modelled, and neither is overflow of the `int` count.
- FactorBuiltin.Factor: the number is a parameter. The C code casts the `char *` argument `args[2]` to `int` without converting the text, and that value is not modelled.
- FactorBuiltin.Factor: `n - 1` overflows for the smallest `int`, and the model does not follow that wrap-around.
- FactorBuiltin.Factor: the printed numbers are modelled as a sequence. The C code prints them with no separator and no newline.
- `solve_chatroom` and `solve_wiseman` have empty bodies and are modelled only as dispatch targets.
- The trailing `-shellax: …: command not found` / UNKNOWN return after the fork cannot be reached, since both fork branches return or exit. `Executor.StepOf` promises the code is never Unknown.
