/** Properties of `parse_command`, stated on the line and proved through `ParseIsChain`. */
module ParserProperties {
  import opened Wrappers
  import opened SeqFacts
  import opened Tokenizer
  import opened Commands
  import opened Parser
  import opened ParserSpec

  /** The names of the stages, in order. */
  function Names(stages: seq<Command>): seq<string>
    decreases |stages|
  {
    if stages == [] then [] else [stages[0].name] + Names(stages[1..])
  }

  /** Blanks around a line change nothing, and neither do runs of blanks between tokens. */
  lemma ParseIgnoresSurroundingBlanks(pre: string, line: string, post: string)
    requires AllDelims(pre, Blanks) && AllDelims(post, Blanks)
    requires WellFormed(line)
    ensures WellFormed(pre + line + post)
    ensures Parse(pre + line + post) == Parse(line)
  {
    assert pre + line + post == pre + (line + post);
    SplitDropLeading(pre, line + post, Blanks);
    SplitAppend(line, post, Blanks);
    SplitAllDelims(post, Blanks);
    assert Tokens(line) + [] == Tokens(line);
    ParseIsChain(line);
    ParseIsChain(pre + line + post);
  }

  /** A line of blanks only is a command with an empty name, no arguments, no redirects and no next stage. */
  lemma BlankLineIsEmptyCommand(line: string)
    requires AllDelims(line, Blanks)
    ensures WellFormed(line)
    ensures Parse(line) == Command("", false, false, [], NoRedirects, None)
  {
    SplitAllDelims(line, Blanks);
    ParseIsChain(line);
  }

  /**
   The head stage: its name is the first token verbatim (the empty string for
   a blank line), its arguments and redirects come from its own tokens only,
   up to the first `|` after the name, and it has a next stage exactly when
   such a `|` exists.
   */
  lemma HeadStage(line: string)
    requires WellFormed(line)
    ensures var toks := Tokens(line); var c := Parse(line);
      && (toks == [] ==> c.name == "" && c.args == [] && c.redirects == NoRedirects && c.next == None)
      && (toks != [] ==>
            var k := SepIndex(toks[1..]);
            && c.name == toks[0]
            && c.args == ArgsOf(toks[1..k + 1])
            && c.redirects == SlotsOf(toks[1..k + 1])
            && (c.next.Some? <==> "|" in toks[1..]))
  {
    ParseIsChain(line);
    var toks := Tokens(line);
    if toks != [] {
      var k := SepIndex(toks[1..]);
      assert toks[1..][..k] == toks[1..k + 1];
      if "|" in toks[1..] {
        var j :| 0 <= j < |toks[1..]| && toks[1..][j] == "|";
        assert k <= j;
      }
    }
  }

  lemma {:induction false} ChainFlags(toks: seq<string>, bg: bool, ac: bool)
    ensures forall i :: 0 <= i < |Stages(Chain(toks, bg, ac))| ==>
              Stages(Chain(toks, bg, ac))[i].background == bg && Stages(Chain(toks, bg, ac))[i].autoComplete == ac
    decreases |toks|
  {
    var c := Chain(toks, bg, ac);
    assert Stages(c)[0] == c;
    if toks != [] {
      var rest := toks[1..];
      var k := SepIndex(rest);
      if k < |rest| {
        var n := Chain(rest[k + 1..], bg, ac);
        ChainFlags(rest[k + 1..], bg, ac);
        assert c.next == Some(n);
        forall i | 0 < i < |Stages(c)|
          ensures Stages(c)[i] == Stages(n)[i - 1]
        {
        }
      }
    }
  }

  /**
   Every stage of the chain is in the background exactly when the trimmed line
   ends in `&`, and asks for completion exactly when it ends in `?`; that
   character stays part of the last token.
   */
  lemma StageFlags(line: string)
    requires WellFormed(line)
    ensures forall i :: 0 <= i < |Stages(Parse(line))| ==>
              && (Stages(Parse(line))[i].background <==> Trim(line) != [] && Last(Trim(line)) == '&')
              && (Stages(Parse(line))[i].autoComplete <==> Trim(line) != [] && Last(Trim(line)) == '?')
  {
    ParseIsChain(line);
    FlagsOfLine(line);
    var toks := Tokens(line);
    ChainFlags(toks, EndsIn(toks, '&'), EndsIn(toks, '?'));
  }

  lemma {:induction false} PipesFollowedJoin(own: seq<string>, ty: seq<string>)
    requires "|" !in own
    requires ty != [] && PipesFollowed(ty)
    ensures StagePipesFollowed(own + ["|"] + ty)
    decreases |own|
  {
    var all := own + ["|"] + ty;
    if own == [] {
      assert all == ["|"] + ty;
      assert all[1..] == ty;
    } else {
      assert all[1..] == own[1..] + ["|"] + ty;
      PipesFollowedJoin(own[1..], ty);
    }
  }

  lemma {:induction false} SepIndexJoin(own: seq<string>, ty: seq<string>)
    requires "|" !in own
    ensures SepIndex(own + ["|"] + ty) == |own|
    decreases |own|
  {
    var all := own + ["|"] + ty;
    if own != [] {
      assert all[1..] == own[1..] + ["|"] + ty;
      SepIndexJoin(own[1..], ty);
    }
  }

  /** The tokens of `x | y` are those of `x`, then `|`, then those of `y`. */
  lemma TokensOfPipe(x: string, y: string)
    ensures Tokens(x + " | " + y) == Tokens(x) + ["|"] + Tokens(y)
  {
    assert x + " | " + y == x + (" | " + y);
    SplitAppend(x, " | " + y, Blanks);
    SplitHeadDelim(" | " + y, Blanks);
    assert (" | " + y)[1..] == "|" + (" " + y);
    WordAppend("|", " " + y, Blanks);
    assert Word("|", Blanks) == "|";
    SplitHeadWord("|" + (" " + y), Blanks);
    assert ("|" + (" " + y))[1..] == " " + y;
    SplitHeadDelim(" " + y, Blanks);
    assert (" " + y)[1..] == y;
  }

  /** In the reference, a `|` after a stage's own tokens hangs the rest on as its next stage. */
  lemma ChainOfPipe(tx: seq<string>, ty: seq<string>, bg: bool, ac: bool)
    requires tx != [] && "|" !in tx[1..]
    ensures Chain(tx + ["|"] + ty, bg, ac) == Chain(tx, bg, ac).(next := Some(Chain(ty, bg, ac)))
  {
    var own := tx[1..];
    var all := tx + ["|"] + ty;
    assert all[1..] == own + ["|"] + ty;
    SepIndexJoin(own, ty);
    SepIndexNone(own);
    var rest := all[1..];
    assert rest[..|own|] == own;
    assert rest[|own| + 1..] == ty;
    assert own[..|own|] == own;
  }

  /**
   A `|` between two parts of a line: the first part alone gives the head
   stage (name, arguments, redirects), the second part parsed as a line of its
   own is the next stage, and the flags of the whole line are those of the
   second part. No token after the `|` reaches the head stage.
   */
  lemma PipeSplitsLine(x: string, y: string)
    requires Tokens(x) != [] && "|" !in Tokens(x)[1..]
    requires Tokens(y) != [] && WellFormed(y)
    ensures WellFormed(x) && WellFormed(x + " | " + y)
    ensures Parse(x + " | " + y)
         == Parse(x).(background := Parse(y).background,
                      autoComplete := Parse(y).autoComplete,
                      next := Some(Parse(y)))
  {
    var tx := Tokens(x);
    var ty := Tokens(y);
    var own := tx[1..];
    TokensOfPipe(x, y);
    var all := Tokens(x + " | " + y);
    assert all[1..] == own + ["|"] + ty;
    StagePipesFollowedPlain(own);
    PipesFollowedJoin(own, ty);
    ParseIsChain(x);
    ParseIsChain(y);
    ParseIsChain(x + " | " + y);
    assert all[|tx| + 1..] == ty;
    EndsInSuffix(all, |tx| + 1, '&');
    EndsInSuffix(all, |tx| + 1, '?');
    ChainOfPipe(tx, ty, EndsIn(all, '&'), EndsIn(all, '?'));
  }

  lemma {:induction false} StagePipesFollowedPlain(ts: seq<string>)
    requires "|" !in ts
    ensures StagePipesFollowed(ts)
    decreases |ts|
  {
    if ts != [] {
      StagePipesFollowedPlain(ts[1..]);
    }
  }

  lemma SepIndexNone(ts: seq<string>)
    requires "|" !in ts
    ensures SepIndex(ts) == |ts|
  {
  }

  /** The tokens of `a | b | c`: the names with a `|` between neighbours. */
  function WithPipes(names: seq<string>): (toks: seq<string>)
    requires names != []
    decreases |names|
  {
    if |names| == 1 then names else [names[0], "|"] + WithPipes(names[1..])
  }

  lemma {:induction false} WithPipesChain(names: seq<string>, bg: bool, ac: bool)
    requires names != []
    ensures PipesFollowed(WithPipes(names))
    ensures Names(Stages(Chain(WithPipes(names), bg, ac))) == names
    ensures forall i :: 0 <= i < |Stages(Chain(WithPipes(names), bg, ac))| ==>
              Stages(Chain(WithPipes(names), bg, ac))[i].args == [] &&
              Stages(Chain(WithPipes(names), bg, ac))[i].redirects == NoRedirects
    decreases |names|
  {
    var toks := WithPipes(names);
    var c := Chain(toks, bg, ac);
    if |names| == 1 {
      assert toks[1..] == [];
      assert Stages(c) == [c];
    } else {
      var w := WithPipes(names[1..]);
      WithPipesChain(names[1..], bg, ac);
      assert toks[1..] == ["|"] + w;
      assert (["|"] + w)[1..] == w;
      assert SepIndex(toks[1..]) == 0;
      assert toks[1..][..0] == [];
      assert c.next == Some(Chain(w, bg, ac));
      assert Stages(c) == [c] + Stages(Chain(w, bg, ac));
      assert names == [names[0]] + names[1..];
    }
  }

  lemma {:induction false} WithPipesTokens(names: seq<string>)
    requires names != []
    requires forall i :: 0 <= i < |names| ==> names[i] != [] && NoDelim(names[i], Blanks)
    ensures forall i :: 0 <= i < |WithPipes(names)| ==>
              WithPipes(names)[i] != [] && NoDelim(WithPipes(names)[i], Blanks)
    decreases |names|
  {
    if |names| > 1 {
      WithPipesTokens(names[1..]);
    }
  }

  /**
   `n1 | n2 | ... | nk` is a chain of k stages named n1 ... nk, in order, each
   with no arguments and no redirects.
   */
  lemma PipelineOfNames(names: seq<string>)
    requires names != []
    requires forall i :: 0 <= i < |names| ==> names[i] != [] && NoDelim(names[i], Blanks)
    ensures WellFormed(Join(WithPipes(names), ' '))
    ensures Names(Stages(Parse(Join(WithPipes(names), ' ')))) == names
    ensures forall i :: 0 <= i < |Stages(Parse(Join(WithPipes(names), ' ')))| ==>
              Stages(Parse(Join(WithPipes(names), ' ')))[i].args == [] &&
              Stages(Parse(Join(WithPipes(names), ' ')))[i].redirects == NoRedirects
  {
    var line := Join(WithPipes(names), ' ');
    WithPipesTokens(names);
    SplitJoin(WithPipes(names), ' ', Blanks);
    var toks := Tokens(line);
    assert toks == WithPipes(names);
    WithPipesChain(names, EndsIn(toks, '&'), EndsIn(toks, '?'));
    ParseIsChain(line);
  }

  // ---------------------------------------------------------------------------
  // How many stages a line has

  lemma NamesOfStages(c: Command)
    ensures c.next.None? ==> Names(Stages(c)) == [c.name]
    ensures c.next.Some? ==> Names(Stages(c)) == [c.name] + Names(Stages(c.next.value))
  {
    assert Stages(c)[0] == c;
  }

  /** The tokens before the first `|` add no `|` to the count. */
  lemma {:induction false} OccurrencesSkip(ts: seq<string>, k: nat)
    requires k <= |ts| && forall i :: 0 <= i < k ==> ts[i] != "|"
    ensures Occurrences(ts, "|") == Occurrences(ts[k..], "|")
    decreases k
  {
    if k > 0 {
      assert ts[1..][k - 1..] == ts[k..];
      OccurrencesSkip(ts[1..], k - 1);
    }
  }

  /**
   Every `|` token either ends a stage or is the name of the stage after one:
   the `|` tokens number one less than the stages plus the stages named `|`.
   In `a | | b` the second `|` names the second stage, whose argument is `b`.
   */
  lemma {:induction false} ChainPipeCount(toks: seq<string>, bg: bool, ac: bool)
    ensures Occurrences(toks, "|") + 1
         == |Stages(Chain(toks, bg, ac))| + Occurrences(Names(Stages(Chain(toks, bg, ac))), "|")
    decreases |toks|
  {
    var c := Chain(toks, bg, ac);
    NamesOfStages(c);
    if toks == [] {
      assert [c.name] == [""] + [];
      OccurrencesCons("", [], "|");
    } else {
      var rest := toks[1..];
      var k := SepIndex(rest);
      assert toks == [toks[0]] + rest;
      OccurrencesCons(toks[0], rest, "|");
      OccurrencesSkip(rest, k);
      if k < |rest| {
        var tail := rest[k + 1..];
        var n := Chain(tail, bg, ac);
        assert rest[k..] == ["|"] + tail;
        OccurrencesCons("|", tail, "|");
        ChainPipeCount(tail, bg, ac);
        assert c.next == Some(n);
        OccurrencesCons(toks[0], Names(Stages(n)), "|");
      } else {
        assert rest[k..] == [];
        assert [c.name] == [toks[0]] + [];
        OccurrencesCons(toks[0], [], "|");
      }
    }
  }

  /** No `|` is the first token or follows another `|`: every `|` separates two stages. */
  predicate PipesSeparate(toks: seq<string>) {
    && (toks != [] ==> toks[0] != "|")
    && (forall i :: 0 < i < |toks| && toks[i - 1] == "|" ==> toks[i] != "|")
  }

  lemma {:induction false} ChainNamesNoPipe(toks: seq<string>, bg: bool, ac: bool)
    requires PipesSeparate(toks)
    ensures Occurrences(Names(Stages(Chain(toks, bg, ac))), "|") == 0
    decreases |toks|
  {
    var c := Chain(toks, bg, ac);
    NamesOfStages(c);
    if toks != [] {
      var rest := toks[1..];
      var k := SepIndex(rest);
      if k < |rest| {
        var tail := rest[k + 1..];
        var n := Chain(tail, bg, ac);
        assert rest[k] == toks[k + 1] == "|";
        forall i | 0 <= i < |tail|
          ensures tail[i] == toks[k + 2 + i]
        {
        }
        ChainNamesNoPipe(tail, bg, ac);
        assert c.next == Some(n);
        OccurrencesCons(toks[0], Names(Stages(n)), "|");
      } else {
        assert [c.name] == [toks[0]] + [];
        OccurrencesCons(toks[0], [], "|");
      }
    } else {
      assert [c.name] == [""] + [];
      OccurrencesCons("", [], "|");
    }
  }

  /**
   The number of stages a line parses to: the `|` tokens of the line number
   one less than the stages plus the stages whose name is `|`.
   */
  lemma PipeCount(line: string)
    requires WellFormed(line)
    ensures Occurrences(Tokens(line), "|") + 1
         == |Stages(Parse(line))| + Occurrences(Names(Stages(Parse(line))), "|")
  {
    ParseIsChain(line);
    var toks := Tokens(line);
    ChainPipeCount(toks, EndsIn(toks, '&'), EndsIn(toks, '?'));
  }

  /** When every `|` stands between two other tokens, a line has one stage more than it has `|` tokens. */
  lemma StageCount(line: string)
    requires WellFormed(line) && PipesSeparate(Tokens(line))
    ensures |Stages(Parse(line))| == Occurrences(Tokens(line), "|") + 1
  {
    PipeCount(line);
    ParseIsChain(line);
    var toks := Tokens(line);
    ChainNamesNoPipe(toks, EndsIn(toks, '&'), EndsIn(toks, '?'));
  }

  /** Arguments keep their input order: the arguments of two runs of tokens are concatenated. */
  lemma {:induction false} ArgsOfAppend(a: seq<string>, b: seq<string>)
    ensures ArgsOf(a + b) == ArgsOf(a) + ArgsOf(b)
    decreases |a|
  {
    if a == [] {
      assert a + b == b;
    } else {
      assert (a + b)[1..] == a[1..] + b;
      ArgsOfAppend(a[1..], b);
      ConcatAssoc(ArgumentOf(a[0]), ArgsOf(a[1..]), ArgsOf(b));
    }
  }

  /** Redirect tokens and `&` never become arguments, wherever they stand. */
  lemma ArgsOfSkipsNonArguments(a: seq<string>, tok: string, b: seq<string>)
    requires !Kind(tok).Argument?
    ensures ArgsOf(a + [tok] + b) == ArgsOf(a) + ArgsOf(b)
  {
    ArgsOfAppend(a + [tok], b);
    ArgsOfAppend(a, [tok]);
    assert ArgsOf([tok]) == [] by {
      assert [tok][1..] == [];
    }
    assert ArgsOf(a) + [] == ArgsOf(a);
  }

  /**
   `sleep 10&`: a line ending in `&` is in the background, and the `&` is not
   cut off the token it ends, which stays an argument as written.
   */
  lemma TrailingAmpersandStaysInArgument(name: string, arg: string)
    requires name != [] && NoDelim(name, Blanks)
    requires arg != [] && NoDelim(arg, Blanks) && Last(arg) == '&'
    requires Kind(arg) == Argument(arg)
    ensures WellFormed(name + " " + arg)
    ensures Parse(name + " " + arg) == Command(name, true, false, [arg], NoRedirects, None)
  {
    var toks := [name, arg];
    var line := name + " " + arg;
    assert Tokens(line) == toks by {
      assert Join(toks, ' ') == line by {
        assert toks[1..] == [arg];
      }
      SplitJoin(toks, ' ', Blanks);
    }
    ParseIsChain(line);
    SingleArgumentChain(name, arg, true, false);
  }

  lemma SingleArgumentChain(name: string, arg: string, bg: bool, ac: bool)
    requires Kind(arg) == Argument(arg)
    ensures Chain([name, arg], bg, ac) == Command(name, bg, ac, [arg], NoRedirects, None)
  {
    var toks := [name, arg];
    assert toks[1..] == [arg];
    assert SepIndex([arg]) == 1;
    assert [arg][..1] == [arg];
    assert [arg][1..] == [];
    assert ArgsOf([arg]) == [arg];
    forall slot: Slot ensures LastTarget([arg], slot) == None {
      assert TargetFor(arg, slot) == None;
    }
  }
}
