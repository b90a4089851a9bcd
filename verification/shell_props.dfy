/**
 Properties of the shell on whole input lines: the line is parsed and the
 parsed command is handed to the process decisions.
 */
module ShellProperties {
  import opened Wrappers
  import opened SeqFacts
  import opened Tokenizer
  import opened Commands
  import opened Parser
  import opened ParserSpec
  import opened ParserProperties
  import opened Resolver
  import opened Executor
  import UniqBuiltin

  /** A blank line is read as the empty command: the shell carries on, forks nothing and starts no stage. */
  lemma BlankLineDoesNothing(line: string, chdirError: Option<string>, pathVar: string, listings: map<string, seq<string>>)
    requires AllDelims(line, Blanks)
    ensures WellFormed(line)
    ensures StepOf(Parse(line), chdirError) == ShellStep(Success, false, false, None)
    ensures Events(Parse(line), pathVar, listings) == []
  {
    BlankLineIsEmptyCommand(line);
  }

  /** A line whose first word is `exit` ends the shell, whatever follows, and starts no stage. */
  lemma ExitLineQuits(line: string, chdirError: Option<string>, pathVar: string, listings: map<string, seq<string>>)
    requires WellFormed(line)
    requires Tokens(line) != [] && Tokens(line)[0] == "exit"
    ensures StepOf(Parse(line), chdirError) == ShellStep(Exit, false, false, None)
    ensures CodeValue(StepOf(Parse(line), chdirError).code) == 1
    ensures Events(Parse(line), pathVar, listings) == []
  {
    HeadStage(line);
  }

  /**
   `cd` with an argument changes directory inside the shell to the first
   argument, and nothing after it on the line is started; a failing `chdir`
   is reported as `-shellax: cd: <reason>`.
   */
  lemma CdWithArgument(line: string, chdirError: Option<string>, pathVar: string, listings: map<string, seq<string>>)
    requires WellFormed(line)
    requires Tokens(line) != [] && Tokens(line)[0] == "cd"
    requires Parse(line).args != []
    ensures !StepOf(Parse(line), chdirError).forks
    ensures StepOf(Parse(line), chdirError).code == Success
    ensures StepOf(Parse(line), chdirError).diagnostic
            == if chdirError.Some? then Some("-shellax: cd: " + chdirError.value + "\n") else None
    ensures Events(Parse(line), pathVar, listings) == [ChangedDir(Parse(line).args[0])]
  {
    HeadStage(line);
    CdStep(Parse(line), chdirError, pathVar, listings);
  }

  lemma CdStep(c: Command, chdirError: Option<string>, pathVar: string, listings: map<string, seq<string>>)
    requires c.name == "cd" && c.args != []
    ensures StepOf(c, chdirError)
            == ShellStep(Success, false, false,
                         if chdirError.Some? then Some("-shellax: cd: " + chdirError.value + "\n") else None)
    ensures Events(c, pathVar, listings) == [ChangedDir(c.args[0])]
  {
    assert "-" + SysName + ": " + c.name + ": " == "-shellax: cd: ";
  }

  /**
   A bare `cd` is not handled in the shell: it is forked like any other
   command and looked up on the search path, and reported as not found when
   no directory lists it.
   */
  lemma BareCdIsForked(line: string, chdirError: Option<string>, pathVar: string, listings: map<string, seq<string>>)
    requires WellFormed(line)
    requires Tokens(line) != [] && Tokens(line)[0] == "cd"
    requires Parse(line).args == []
    requires forall i :: 0 <= i < |SearchDirs(pathVar)| ==> !Lists(listings, SearchDirs(pathVar)[i], "cd")
    ensures StepOf(Parse(line), chdirError).forks
    ensures Events(Parse(line), pathVar, listings) == [NotFound("command not found: cd\n")]
  {
    HeadStage(line);
    FirstMatchIsFirst(SearchDirs(pathVar), "cd", listings);
    assert "command not found: " + Parse(line).name + "\n" == "command not found: cd\n";
  }

  /** The shell waits for the head stage exactly when it forks one and the line does not end in `&`. */
  lemma WaitsUnlessBackground(line: string, chdirError: Option<string>)
    requires WellFormed(line)
    ensures var s := StepOf(Parse(line), chdirError);
            s.waits <==> s.forks && !(Trim(line) != [] && Last(Trim(line)) == '&')
  {
    StageFlags(line);
    assert Stages(Parse(line))[0] == Parse(line);
  }

  /**
   The file the head stage writes its output to: the target of its last `>`
   token when it has one, otherwise the target of its last `>>` token, opened
   to append; with neither, standard output is left alone.
   */
  lemma HeadOutputFile(line: string)
    requires WellFormed(line) && Tokens(line) != []
    ensures var toks := Tokens(line);
            var own := toks[1..SepIndex(toks[1..]) + 1];
            var outs := set o | o in RedirectOpens(Parse(line).redirects) && o.fd == 1;
            var t, a := LastTarget(own, TruncateSlot), LastTarget(own, AppendSlot);
            && (t.Some? ==> outs == {Open(t.value, TruncateFlags, 1)})
            && (t.None? && a.Some? ==> outs == {Open(a.value, AppendFlags, 1)})
            && (t.None? && a.None? ==> outs == {})
  {
    HeadStage(line);
  }

  /** A stage's `uniq` prints counts exactly when its first argument is `-c` or `--count`. */
  lemma UniqCountFlag(c: Command)
    ensures UniqBuiltin.PrintsCount(Argv(c)) <==> |c.args| >= 1 && (c.args[0] == "-c" || c.args[0] == "--count")
  {
    ArgvShape(c);
  }
}
