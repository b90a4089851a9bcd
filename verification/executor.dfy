/**
 The decisions `process_command` takes before and around its system calls:
 what the shell does with the head stage, the argument vector a forked stage
 gets, whether it runs a built-in or a program found on the search path,
 which redirect files it opens, and how far down the chain stages are started.
 The forks, pipes, descriptor copies and waits themselves are not modelled.
 */
module Executor {
  import opened Wrappers
  import opened Tokenizer
  import opened Commands
  import opened Builtins
  import opened Resolver

  /** The `return_codes` of the shell: 0, 1 and 2. */
  datatype ReturnCode = Success | Exit | Unknown

  function CodeValue(rc: ReturnCode): int {
    match rc
    case Success => 0
    case Exit => 1
    case Unknown => 2
  }

  const SysName := "shellax"

  /** What `process_command` does with a stage before it would fork. */
  datatype HeadAction =
    | NoOp                          // empty name
    | Quit                          // `exit`
    | ChangeDir(target: string)     // `cd` with an argument, done in-process
    | Fork                          // everything else, a bare `cd` included

  function Classify(c: Command): HeadAction {
    if c.name == "" then NoOp
    else if c.name == "exit" then Quit
    else if c.name == "cd" && |c.args| > 0 then ChangeDir(c.args[0])
    else Fork
  }

  /** What the shell's own call of `process_command` on the head stage amounts to. */
  datatype ShellStep = ShellStep(code: ReturnCode, forks: bool, waits: bool, diagnostic: Option<string>)

  /**
   The shell's step for a parsed line. `chdirError` is the text `strerror`
   gives when `chdir` fails, `None` when it succeeds.
   */
  function StepOf(c: Command, chdirError: Option<string>): (s: ShellStep)
    ensures s.code != Unknown
    ensures s.code == Exit <==> c.name == "exit"
    ensures s.forks <==> c.name != "" && c.name != "exit" && !(c.name == "cd" && |c.args| > 0)
    ensures s.waits <==> s.forks && !c.background
    ensures s.diagnostic.Some? <==> c.name == "cd" && |c.args| > 0 && chdirError.Some?
  {
    match Classify(c)
    case NoOp => ShellStep(Success, false, false, None)
    case Quit => ShellStep(Exit, false, false, None)
    case ChangeDir(_) =>
      var msg := if chdirError.Some? then Some("-" + SysName + ": " + c.name + ": " + chdirError.value + "\n") else None;
      ShellStep(Success, false, false, msg)
    case Fork => ShellStep(Success, true, !c.background, None)
  }

  // ---------------------------------------------------------------------------
  // The argument vector

  /** The argument vector of a forked stage: name, arguments, then the NULL terminator. */
  function Argv(c: Command): seq<Option<string>> {
    [Some(c.name)] + seq(|c.args|, i requires 0 <= i < |c.args| => Some(c.args[i])) + [None]
  }

  lemma ArgvShape(c: Command)
    ensures |Argv(c)| == |c.args| + 2
    ensures Argv(c)[0] == Some(c.name) && Argv(c)[|c.args| + 1] == None
    ensures forall i :: 0 <= i < |c.args| ==> Argv(c)[i + 1] == Some(c.args[i])
  {
  }

  /**
   The construction in the child: the argument array grows by two slots,
   every argument moves up one place, the name goes first and the last slot
   becomes NULL. The two new slots start out empty.
   */
  method BuildArgv(c: Command) returns (argv: seq<Option<string>>)
    ensures argv == Argv(c)
  {
    var n := |c.args| + 2;
    argv := seq(|c.args|, i requires 0 <= i < |c.args| => Some(c.args[i])) + [None, None];
    ghost var grown := argv;
    var i := n - 2;
    while i > 0
      invariant 0 <= i <= n - 2
      invariant |argv| == n
      invariant forall j :: 0 <= j <= i ==> argv[j] == grown[j]
      invariant forall j :: i < j < n ==> argv[j] == grown[j - 1]
    {
      argv := argv[i := argv[i - 1]];
      i := i - 1;
    }
    argv := argv[0 := Some(c.name)];
    argv := argv[n - 1 := None];
  }

  // ---------------------------------------------------------------------------
  // Program selection and redirects

  datatype Program = BuiltinProgram(which: Builtin) | ExternalProgram(path: string)

  /**
   A built-in runs under its own name without a search; any other name is
   looked up on the search path and is not found when the lookup gives `""`.
   */
  function ProgramOf(name: string, pathVar: string, listings: map<string, seq<string>>): Option<Program> {
    if IsBuiltin(name) then Some(BuiltinProgram(Dispatch(name).value))
    else
      var pth := FirstMatch(SearchDirs(pathVar), name, listings);
      if pth != "" then Some(ExternalProgram(pth)) else None
  }

  lemma ProgramOfSpec(name: string, pathVar: string, listings: map<string, seq<string>>)
    ensures var p := ProgramOf(name, pathVar, listings);
            && (p.Some? && p.value.BuiltinProgram? <==> IsBuiltin(name))
            && (p.Some? && p.value.BuiltinProgram? ==> BuiltinName(p.value.which) == name)
            && (p.None? <==> !IsBuiltin(name) && forall i :: 0 <= i < |SearchDirs(pathVar)| ==> !Lists(listings, SearchDirs(pathVar)[i], name))
            && (p.Some? && p.value.ExternalProgram? ==> p.value.path == FirstMatch(SearchDirs(pathVar), name, listings))
  {
    DispatchAgrees(name);
    FirstMatchIsFirst(SearchDirs(pathVar), name, listings);
  }

  /** The `open` flags used for redirect files. */
  datatype OpenFlag = ReadWrite | Create | Truncate | Append

  /** One redirect file to open and the standard descriptor it replaces. */
  datatype Open = Open(path: string, flags: set<OpenFlag>, fd: nat)

  const InputFlags: set<OpenFlag> := {ReadWrite, Create}
  const TruncateFlags: set<OpenFlag> := {ReadWrite, Create, Truncate}
  const AppendFlags: set<OpenFlag> := {ReadWrite, Create, Append}

  /**
   The redirect files a stage opens, in order: slot 0 onto standard input,
   then at most one file onto standard output, the truncate slot when it is
   set and otherwise the append slot.
   */
  function RedirectOpens(r: Redirects): seq<Open> {
    var input := if r.input.Some? then [Open(r.input.value, InputFlags, 0)] else [];
    var output :=
      if r.truncate.Some? then [Open(r.truncate.value, TruncateFlags, 1)]
      else if r.append.Some? then [Open(r.append.value, AppendFlags, 1)]
      else [];
    input + output
  }

  lemma RedirectOpensShape(r: Redirects)
    ensures var opens := RedirectOpens(r);
            && (r.input.Some? <==> exists o :: o in opens && o.fd == 0)
            && (forall o :: o in opens && o.fd == 0 ==> o == Open(r.input.value, InputFlags, 0))
            && (forall i, j :: 0 <= i < j < |opens| ==> opens[i].fd != opens[j].fd)
            && ((r.truncate.Some? || r.append.Some?) <==> exists o :: o in opens && o.fd == 1)
            && (r.truncate.Some? ==> Open(r.truncate.value, TruncateFlags, 1) in opens)
            && ((exists o :: o in opens && Append in o.flags) <==> r.truncate.None? && r.append.Some?)
            && (forall o :: o in opens ==> o.fd <= 1 && Create in o.flags && ReadWrite in o.flags)
  {
  }

  // ---------------------------------------------------------------------------
  // Down the chain

  /** A stage that was started, with what it runs and what it opens. */
  datatype Stage = Stage(argv: seq<Option<string>>, program: Program, opens: seq<Open>, pipesOn: bool)

  /** What `process_command` leaves behind for one stage. */
  datatype Event =
    | ChangedDir(target: string)    // in-process `chdir`; the rest of the chain is dropped
    | Ran(stage: Stage)             // the stage was forked and runs its program
    | NotFound(message: string)     // `command not found: <name>`; the rest of the chain is dropped

  /** What the child prints when a name is neither built in nor found. */
  function NotFoundMessage(name: string): string {
    "command not found: " + name + "\n"
  }

  /** The stage record of a forked stage whose program was found. */
  function StageOf(c: Command, p: Program): Stage {
    Stage(Argv(c), p, RedirectOpens(c.redirects), c.next.Some?)
  }

  /**
   The events of running `c` and, through the recursive call made after each
   piped stage, the stages after it. An empty name or `exit` gives none; a
   `cd` with an argument only changes directory; a stage whose program is not
   found reports it and stops the chain.
   */
  function Events(c: Command, pathVar: string, listings: map<string, seq<string>>): seq<Event>
    decreases c
  {
    match Classify(c)
    case NoOp => []
    case Quit => []
    case ChangeDir(t) => [ChangedDir(t)]
    case Fork =>
      match ProgramOf(c.name, pathVar, listings)
      case None => [NotFound(NotFoundMessage(c.name))]
      case Some(p) =>
        var rest := if c.next.Some? then Events(c.next.value, pathVar, listings) else [];
        [Ran(StageOf(c, p))] + rest
  }

  /** One started stage with a stage after it: its event, then the events of the rest. */
  lemma EventsCons(c: Command, pathVar: string, listings: map<string, seq<string>>)
    requires Classify(c) == Fork && ProgramOf(c.name, pathVar, listings).Some? && c.next.Some?
    ensures Events(c, pathVar, listings)
            == [Ran(StageOf(c, ProgramOf(c.name, pathVar, listings).value))] + Events(c.next.value, pathVar, listings)
  {
  }

  /** An event after the first belongs to the stages after the head, which therefore started. */
  lemma EventsTail(c: Command, pathVar: string, listings: map<string, seq<string>>, i: nat)
    requires 0 < i < |Events(c, pathVar, listings)|
    ensures Classify(c) == Fork && ProgramOf(c.name, pathVar, listings).Some? && c.next.Some?
    ensures i - 1 < |Events(c.next.value, pathVar, listings)|
    ensures Events(c, pathVar, listings)[i] == Events(c.next.value, pathVar, listings)[i - 1]
    ensures |Events(c, pathVar, listings)| == |Events(c.next.value, pathVar, listings)| + 1
    ensures Stages(c)[1..] == Stages(c.next.value)
  {
    EventsCons(c, pathVar, listings);
  }

  /**
   At most one event per stage; none exactly for an empty name or `exit`;
   and only the last event may be something other than a started stage.
   */
  lemma {:induction false} EventsCount(c: Command, pathVar: string, listings: map<string, seq<string>>)
    ensures var es := Events(c, pathVar, listings);
            && |es| <= |Stages(c)|
            && (es == [] <==> Classify(c) == NoOp || Classify(c) == Quit)
            && (forall i :: 0 <= i < |es| - 1 ==> es[i].Ran?)
    decreases c
  {
    if Classify(c) == Fork && ProgramOf(c.name, pathVar, listings).Some? && c.next.Some? {
      var n := c.next.value;
      EventsCount(n, pathVar, listings);
      EventsCons(c, pathVar, listings);
      var es, rest := Events(c, pathVar, listings), Events(n, pathVar, listings);
      forall i | 1 <= i < |es| - 1
        ensures es[i] == rest[i - 1]
      {
      }
    }
  }

  /**
   The i-th started stage is the i-th stage of the chain, forked, with its
   own argument vector and redirect files, and a pipe exactly when a stage
   follows it.
   */
  lemma {:induction false} EventsRan(c: Command, pathVar: string, listings: map<string, seq<string>>, i: nat)
    requires i < |Events(c, pathVar, listings)| && Events(c, pathVar, listings)[i].Ran?
    ensures i < |Stages(c)|
    ensures Classify(Stages(c)[i]) == Fork
    ensures Events(c, pathVar, listings)[i].stage.argv == Argv(Stages(c)[i])
    ensures Events(c, pathVar, listings)[i].stage.opens == RedirectOpens(Stages(c)[i].redirects)
    ensures Events(c, pathVar, listings)[i].stage.pipesOn <==> i + 1 < |Stages(c)|
    decreases c
  {
    if i > 0 {
      var n := c.next.value;
      EventsTail(c, pathVar, listings, i);
      EventsRan(n, pathVar, listings, i - 1);
      assert Stages(c)[i] == Stages(n)[i - 1];
    }
  }

  /**
   A `command not found` report is the last event: it comes from a stage that
   forks but whose name is neither built in nor listed on the search path, and
   it names that stage. No stage after it is started.
   */
  lemma {:induction false} EventsNotFound(c: Command, pathVar: string, listings: map<string, seq<string>>, i: nat)
    requires i < |Events(c, pathVar, listings)| && Events(c, pathVar, listings)[i].NotFound?
    ensures i == |Events(c, pathVar, listings)| - 1
    ensures i < |Stages(c)|
    ensures Classify(Stages(c)[i]) == Fork
    ensures ProgramOf(Stages(c)[i].name, pathVar, listings).None?
    ensures Events(c, pathVar, listings)[i].message == NotFoundMessage(Stages(c)[i].name)
    decreases c
  {
    if i > 0 {
      var n := c.next.value;
      EventsTail(c, pathVar, listings, i);
      EventsNotFound(n, pathVar, listings, i - 1);
      assert Stages(c)[i] == Stages(n)[i - 1];
    }
  }

  /**
   A change of directory is the last event: it comes from a `cd` stage with
   at least one argument, and its target is that stage's first argument. No
   stage after it is started.
   */
  lemma {:induction false} EventsChangedDir(c: Command, pathVar: string, listings: map<string, seq<string>>, i: nat)
    requires i < |Events(c, pathVar, listings)| && Events(c, pathVar, listings)[i].ChangedDir?
    ensures i == |Events(c, pathVar, listings)| - 1
    ensures i < |Stages(c)|
    ensures Stages(c)[i].name == "cd" && Stages(c)[i].args != []
    ensures Events(c, pathVar, listings)[i].target == Stages(c)[i].args[0]
    decreases c
  {
    if i > 0 {
      var n := c.next.value;
      EventsTail(c, pathVar, listings, i);
      EventsChangedDir(n, pathVar, listings, i - 1);
      assert Stages(c)[i] == Stages(n)[i - 1];
    }
  }

  /**
   When every stage forks and finds its program, every stage runs, first to
   last, each with its own argument vector, program and redirect files.
   */
  lemma {:induction false} AllStagesRun(c: Command, pathVar: string, listings: map<string, seq<string>>)
    requires forall i :: 0 <= i < |Stages(c)| ==>
               Classify(Stages(c)[i]) == Fork && ProgramOf(Stages(c)[i].name, pathVar, listings).Some?
    ensures |Events(c, pathVar, listings)| == |Stages(c)|
    ensures forall i :: 0 <= i < |Stages(c)| ==>
              Events(c, pathVar, listings)[i]
              == Ran(StageOf(Stages(c)[i], ProgramOf(Stages(c)[i].name, pathVar, listings).value))
    decreases c
  {
    assert Stages(c)[0] == c;
    if c.next.Some? {
      var n := c.next.value;
      forall i | 0 <= i < |Stages(n)|
        ensures Stages(n)[i] == Stages(c)[i + 1]
      {
      }
      AllStagesRun(n, pathVar, listings);
      EventsCons(c, pathVar, listings);
      var es, rest := Events(c, pathVar, listings), Events(n, pathVar, listings);
      forall i | 1 <= i < |Stages(c)|
        ensures es[i] == rest[i - 1] && Stages(c)[i] == Stages(n)[i - 1]
      {
      }
    }
  }
}
