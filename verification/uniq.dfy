/**
 The `uniq` built-in: standard input is read line by line, each maximal run
 of identical adjacent lines is printed once, prefixed by the run's length
 and a space when the first argument is `-c` or `--count`. A line includes
 its newline, so a last line without one differs from the same text with it.
 */
module UniqBuiltin {
  import opened Wrappers
  import SeqFacts

  /** `n` copies of a line together, as one entry of the output. */
  datatype Run = Run(count: nat, line: string)

  function Repeat(line: string, n: nat): seq<string>
    decreases n
  {
    if n == 0 then [] else Repeat(line, n - 1) + [line]
  }

  /** The input a sequence of runs stands for: each line repeated by its count. */
  function Expand(runs: seq<Run>): seq<string>
    decreases |runs|
  {
    if runs == [] then [] else Expand(runs[..|runs| - 1]) + Repeat(runs[|runs| - 1].line, runs[|runs| - 1].count)
  }

  /** Every run has a line, and neighbouring runs hold different lines: the runs are maximal. */
  predicate Maximal(runs: seq<Run>) {
    && (forall i :: 0 <= i < |runs| ==> runs[i].count >= 1)
    && (forall i :: 0 < i < |runs| ==> runs[i - 1].line != runs[i].line)
  }

  /** The maximal runs of adjacent identical lines, built line by line. */
  function Runs(lines: seq<string>): seq<Run>
    decreases |lines|
  {
    if lines == [] then [] else Step(Runs(lines[..|lines| - 1]), lines[|lines| - 1])
  }

  /** One more line: it lengthens the last run when it repeats that run's line, else starts a run. */
  function Step(runs: seq<Run>, line: string): seq<Run> {
    if runs != [] && runs[|runs| - 1].line == line then
      runs[..|runs| - 1] + [Run(runs[|runs| - 1].count + 1, line)]
    else
      runs + [Run(1, line)]
  }

  /** The decimal digits of a count, as `printf("%d")` writes a non-negative number. */
  function Decimal(n: nat): (s: string)
    ensures s != []
    decreases n
  {
    if n < 10 then [DigitChar(n)] else Decimal(n / 10) + [DigitChar(n % 10)]
  }

  function DigitChar(d: nat): char
    requires d < 10
  {
    "0123456789"[d]
  }

  /** The number a string of decimal digits denotes. */
  function DecimalValue(s: string): nat
    decreases |s|
  {
    if s == [] then 0 else 10 * DecimalValue(s[..|s| - 1]) + DigitValue(s[|s| - 1])
  }

  function DigitValue(c: char): nat {
    if '0' <= c <= '9' then (c as int - '0' as int) as nat else 0
  }

  /** One output line: `"%d %s"` of the count and the line, or the line alone. */
  function Format(r: Run, printCount: bool): string {
    if printCount then Decimal(r.count) + " " + r.line else r.line
  }

  /** The output lines, one per run in order. */
  function Render(runs: seq<Run>, printCount: bool): seq<string>
    decreases |runs|
  {
    if runs == [] then [] else Render(runs[..|runs| - 1], printCount) + [Format(runs[|runs| - 1], printCount)]
  }

  /**
   Whether counts are printed, decided on the argument vector as the child sees
   it (`Executor.Argv`: the name, the arguments, then NULL): at least one
   argument, and the first one is `-c` or `--count`.
   */
  predicate PrintsCount(argv: seq<Option<string>>) {
    |argv| >= 3 && (argv[1] == Some("-c") || argv[1] == Some("--count"))
  }

  /** `solve_uniq`: the flag is decided on the argument vector, then the input is read. */
  method Uniq(lines: seq<string>, argv: seq<Option<string>>) returns (out: seq<string>)
    requires lines != []
    ensures out == Render(Runs(lines), PrintsCount(argv))
  {
    out := PrintRuns(lines, PrintsCount(argv));
  }

  /**
   The reading loop of `solve_uniq`: a run grows while the new line equals the
   previous one; a different line prints the finished run and starts a new
   one; the last run is printed after the input ends. The input has at least
   one line.
   */
  method PrintRuns(lines: seq<string>, printCount: bool) returns (out: seq<string>)
    requires lines != []
    ensures out == Render(Runs(lines), printCount)
  {
    var prev: Option<string> := None;
    var count: nat := 0;
    out := [];
    ghost var done: seq<Run> := [];
    var i := 0;
    while i < |lines|
      invariant 0 <= i <= |lines|
      invariant prev.None? <==> i == 0
      invariant i == 0 ==> done == [] && count == 0
      invariant i > 0 ==> Runs(lines[..i]) == done + [Run(count, prev.value)]
      invariant out == Render(done, printCount)
    {
      var curr := lines[i];
      if prev.None? || prev.value == curr {
        if prev.None? {
          FirstRun(lines, i);
        } else {
          GrowRun(lines, i, done, count);
        }
        count := count + 1;
      } else {
        StartRun(lines, i, done, Run(count, prev.value));
        RenderSnoc(done, Run(count, prev.value), printCount);
        out := out + [Format(Run(count, prev.value), printCount)];
        done := done + [Run(count, prev.value)];
        count := 1;
      }
      prev := Some(curr);
      i := i + 1;
    }
    SeqFacts.TakeAll(lines);
    RenderSnoc(done, Run(count, prev.value), printCount);
    out := out + [Format(Run(count, prev.value), printCount)];
  }

  /** There are no more runs than lines, and no runs exactly when there are no lines. */
  lemma {:induction false} RunsSize(lines: seq<string>)
    ensures |Runs(lines)| <= |lines|
    ensures (Runs(lines) == []) == (lines == [])
    decreases |lines|
  {
    if lines != [] {
      RunsSize(lines[..|lines| - 1]);
    }
  }

  /** The runs of one more line: the last run grows, or a new run starts. */
  lemma RunsNext(lines: seq<string>, i: nat)
    requires i < |lines|
    ensures Runs(lines[..i + 1]) == Step(Runs(lines[..i]), lines[i])
  {
    SeqFacts.TakeTake(lines, i);
  }

  /** The first line is one run of one line. */
  lemma FirstRun(lines: seq<string>, i: nat)
    requires i == 0 < |lines|
    ensures Runs(lines[..i + 1]) == [] + [Run(1, lines[i])]
  {
    RunsNext(lines, i);
    assert lines[..i] == [];
  }

  /** A line equal to the last run's line lengthens that run. */
  lemma GrowRun(lines: seq<string>, i: nat, done: seq<Run>, count: nat)
    requires i < |lines|
    requires Runs(lines[..i]) == done + [Run(count, lines[i])]
    ensures Runs(lines[..i + 1]) == done + [Run(count + 1, lines[i])]
  {
    RunsNext(lines, i);
    var before := done + [Run(count, lines[i])];
    assert before[..|before| - 1] == done;
  }

  /** A line different from the last run's line starts a run of its own. */
  lemma StartRun(lines: seq<string>, i: nat, done: seq<Run>, last: Run)
    requires i < |lines| && last.line != lines[i]
    requires Runs(lines[..i]) == done + [last]
    ensures Runs(lines[..i + 1]) == (done + [last]) + [Run(1, lines[i])]
  {
    RunsNext(lines, i);
  }

  /** Rendering one more run adds its output line at the end. */
  lemma RenderSnoc(runs: seq<Run>, r: Run, printCount: bool)
    ensures Render(runs + [r], printCount) == Render(runs, printCount) + [Format(r, printCount)]
  {
    assert (runs + [r])[..|runs|] == runs;
  }

  // ---------------------------------------------------------------------------
  // What the runs mean

  lemma {:induction false} RepeatLength(line: string, n: nat)
    ensures |Repeat(line, n)| == n
    ensures forall i :: 0 <= i < n ==> Repeat(line, n)[i] == line
    decreases n
  {
    if n > 0 {
      RepeatLength(line, n - 1);
    }
  }

  /** Expanding the runs gives back the input, and the runs are maximal. */
  lemma {:induction false} RunsExpand(lines: seq<string>)
    ensures Expand(Runs(lines)) == lines
    ensures Maximal(Runs(lines))
    decreases |lines|
  {
    if lines != [] {
      var init := lines[..|lines| - 1];
      var line := lines[|lines| - 1];
      RunsExpand(init);
      SeqFacts.SnocSplit(lines);
      RunsStep(Runs(init), line);
    }
  }

  /** Adding one line to maximal runs keeps them maximal and adds the line to their expansion. */
  lemma RunsStep(before: seq<Run>, line: string)
    requires Maximal(before)
    ensures Expand(Step(before, line)) == Expand(before) + [line] && Maximal(Step(before, line))
  {
    if before != [] && before[|before| - 1].line == line {
      var last := before[|before| - 1];
      assert before == before[..|before| - 1] + [Run(last.count, line)];
      GrowExpand(before[..|before| - 1], last.count, line);
      GrowMaximal(before, line);
    } else {
      StartExpand(before, line);
      StartMaximal(before, line);
    }
  }

  lemma GrowExpand(init: seq<Run>, count: nat, line: string)
    ensures Expand(Step(init + [Run(count, line)], line)) == Expand(init + [Run(count, line)]) + [line]
  {
    var before := init + [Run(count, line)];
    assert before[..|before| - 1] == init;
    assert Step(before, line) == init + [Run(count + 1, line)];
    ExpandSnoc(init, Run(count, line));
    ExpandSnoc(init, Run(count + 1, line));
    SeqFacts.ConcatAssoc(Expand(init), Repeat(line, count), [line]);
  }

  lemma ExpandSnoc(runs: seq<Run>, r: Run)
    ensures Expand(runs + [r]) == Expand(runs) + Repeat(r.line, r.count)
  {
    assert (runs + [r])[..|runs|] == runs;
  }

  lemma GrowMaximal(before: seq<Run>, line: string)
    requires Maximal(before) && before != [] && before[|before| - 1].line == line
    ensures Maximal(Step(before, line))
  {
    var runs := Step(before, line);
    assert |runs| == |before|;
    assert forall i :: 0 <= i < |runs| - 1 ==> runs[i] == before[i];
  }

  lemma StartExpand(before: seq<Run>, line: string)
    requires !(before != [] && before[|before| - 1].line == line)
    ensures Expand(Step(before, line)) == Expand(before) + [line]
  {
    var runs := Step(before, line);
    assert runs == before + [Run(1, line)];
    assert runs[..|runs| - 1] == before;
    assert Repeat(line, 1) == [line];
  }

  lemma StartMaximal(before: seq<Run>, line: string)
    requires Maximal(before) && !(before != [] && before[|before| - 1].line == line)
    ensures Maximal(Step(before, line))
  {
    var runs := Step(before, line);
    assert runs == before + [Run(1, line)];
  }

  /** The counts add up to the number of input lines. */
  lemma {:induction false} ExpandLength(runs: seq<Run>)
    ensures |Expand(runs)| == TotalCount(runs)
    decreases |runs|
  {
    if runs != [] {
      ExpandLength(runs[..|runs| - 1]);
      RepeatLength(runs[|runs| - 1].line, runs[|runs| - 1].count);
    }
  }

  function TotalCount(runs: seq<Run>): nat
    decreases |runs|
  {
    if runs == [] then 0 else TotalCount(runs[..|runs| - 1]) + runs[|runs| - 1].count
  }

  /**
   Maximal runs are determined by the input: two maximal run sequences that
   expand to the same lines are equal. So `Runs` is the one maximal run
   decomposition, and `uniq` prints one line per maximal run.
   */
  lemma {:induction false} MaximalRunsUnique(r1: seq<Run>, r2: seq<Run>)
    requires Maximal(r1) && Maximal(r2)
    requires Expand(r1) == Expand(r2)
    ensures r1 == r2
    decreases |r1|
  {
    if r1 == [] {
      ExpandEmpty(r2);
    } else if r2 == [] {
      ExpandEmpty(r1);
    } else {
      ExpandLast(r1);
      ExpandLast(r2);
      LastRunBound(r1, r2);
      LastRunBound(r2, r1);
      ExpandFront(r1);
      ExpandFront(r2);
      MaximalFront(r1);
      MaximalFront(r2);
      MaximalRunsUnique(r1[..|r1| - 1], r2[..|r2| - 1]);
      SeqFacts.SnocSplit(r1);
      SeqFacts.SnocSplit(r2);
    }
  }

  /** Maximal runs expand to no lines exactly when there are none. */
  lemma ExpandEmpty(runs: seq<Run>)
    requires Maximal(runs)
    ensures (Expand(runs) == []) == (runs == [])
  {
    if runs != [] {
      ExpandFront(runs);
    }
  }

  /** Dropping the last run drops its lines from the end of the expansion. */
  lemma ExpandFront(runs: seq<Run>)
    requires runs != []
    ensures |Expand(runs)| >= runs[|runs| - 1].count
    ensures Expand(runs[..|runs| - 1]) == Expand(runs)[..|Expand(runs)| - runs[|runs| - 1].count]
  {
    var last := runs[|runs| - 1];
    RepeatLength(last.line, last.count);
  }

  /** The expansion ends in as many copies of the last run's line as its count. */
  lemma ExpandTail(runs: seq<Run>)
    requires runs != []
    ensures |Expand(runs)| >= runs[|runs| - 1].count
    ensures forall j :: |Expand(runs)| - runs[|runs| - 1].count <= j < |Expand(runs)| ==>
              Expand(runs)[j] == runs[|runs| - 1].line
  {
    var last := runs[|runs| - 1];
    var front := Expand(runs[..|runs| - 1]);
    RepeatLength(last.line, last.count);
    forall j | |Expand(runs)| - last.count <= j < |Expand(runs)|
      ensures Expand(runs)[j] == last.line
    {
      assert Expand(runs)[j] == Repeat(last.line, last.count)[j - |front|];
    }
  }

  /** Dropping the last run keeps the runs maximal. */
  lemma MaximalFront(runs: seq<Run>)
    requires Maximal(runs) && runs != []
    ensures Maximal(runs[..|runs| - 1])
  {
  }

  /** The last line that non-empty maximal runs expand to is the last run's line. */
  lemma ExpandLast(runs: seq<Run>)
    requires Maximal(runs) && runs != []
    ensures Expand(runs) != [] && Expand(runs)[|Expand(runs)| - 1] == runs[|runs| - 1].line
  {
    ExpandFront(runs);
    ExpandTail(runs);
  }

  /**
   When two maximal decompositions of the same lines end in runs of the same
   line, the second one's last run is no longer than the first one's: the line
   before the first one's last run is a different line.
   */
  lemma LastRunBound(r1: seq<Run>, r2: seq<Run>)
    requires Maximal(r1) && Maximal(r2) && r1 != [] && r2 != []
    requires Expand(r1) == Expand(r2)
    requires r1[|r1| - 1].line == r2[|r2| - 1].line
    ensures r2[|r2| - 1].count <= r1[|r1| - 1].count
  {
    var a, b := r1[|r1| - 1], r2[|r2| - 1];
    var e := Expand(r1);
    var p1 := r1[..|r1| - 1];
    ExpandFront(r1);
    ExpandFront(r2);
    ExpandTail(r2);
    if |r1| >= 2 {
      MaximalFront(r1);
      ExpandLast(p1);
      var k := |Expand(p1)| - 1;
      assert e[k] == Expand(p1)[k];
      assert p1[|p1| - 1] == r1[|r1| - 2];
      assert e[k] != b.line;
    }
  }

  /** Reading the printed count back gives the run length. */
  lemma {:induction false} DecimalRoundTrip(n: nat)
    ensures DecimalValue(Decimal(n)) == n
    decreases n
  {
    if n >= 10 {
      DecimalRoundTrip(n / 10);
      var s := Decimal(n);
      assert s[..|s| - 1] == Decimal(n / 10);
    }
  }

  /** A line twice and then a different line make two runs: `a a b` prints `a b`, or `2 a` and `1 b` with counts. */
  lemma UniqExample(a: string, b: string)
    requires a != b
    ensures Render(Runs([a, a, b]), false) == [a, b]
    ensures Render(Runs([a, a, b]), true) == [Decimal(2) + " " + a, Decimal(1) + " " + b]
  {
    var lines := [a, a, b];
    FirstRun(lines, 0);
    GrowRun(lines, 1, [], 1);
    StartRun(lines, 2, [], Run(2, a));
    SeqFacts.TakeAll(lines);
    assert Runs(lines) == [Run(2, a)] + [Run(1, b)];
    RenderSnoc([], Run(2, a), false);
    RenderSnoc([Run(2, a)], Run(1, b), false);
    RenderSnoc([], Run(2, a), true);
    RenderSnoc([Run(2, a)], Run(1, b), true);
  }
}
