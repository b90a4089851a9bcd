/**
 `parse_command`: one input line becomes a chain of commands. The line is
 trimmed, the trailing `&` / `?` flags are read off its last character, the
 first token is the name, and each later token is classified; at a `|` token
 the raw rest of the line, with its leading blanks skipped, is parsed again
 as a line of its own and becomes the next stage.
 */
module Parser {
  import opened Wrappers
  import opened Tokenizer
  import opened Commands

  /** The tokens of a command line. */
  function Tokens(line: string): seq<string> {
    Split(line, Blanks)
  }

  /**
   Every `|` that ends a stage is followed by another token. The first token of
   a stage is its name even when it is `|`, so it never ends the stage.
   */
  predicate PipesFollowed(toks: seq<string>)
    decreases |toks|, 1
  {
    toks == [] || StagePipesFollowed(toks[1..])
  }

  /** `PipesFollowed` for the tokens after a stage's name. */
  predicate StagePipesFollowed(ts: seq<string>)
    decreases |ts|, 0
  {
    if ts == [] then true
    else if ts[0] == "|" then |ts| > 1 && PipesFollowed(ts[1..])
    else StagePipesFollowed(ts[1..])
  }

  /** The lines the parser is defined on: no `|` ends the line. */
  predicate WellFormed(line: string) {
    PipesFollowed(Tokens(line))
  }

  /** The chain of commands `parse_command` builds from one line. */
  function Parse(line: string): Command
    requires WellFormed(line)
    decreases |line|, 1
  {
    var t := Trim(line);
    var background := t != [] && t[|t| - 1] == '&';
    var autoComplete := t != [] && t[|t| - 1] == '?';
    var name := Word(t, Blanks);
    SplitTrim(line);
    if t == [] then
      Command(name, background, autoComplete, [], NoRedirects, None)
    else
      assert t[0] !in Blanks by { TrimStartsWord(line); }
      SplitHeadWord(t, Blanks);
      ParseArgs(t[|name|..], Command(name, background, autoComplete, [], NoRedirects, None))
  }

  /**
   The token loop of `parse_command` over the unread part `s` of the line,
   building `node`. A `|` hands the rest of the line to a fresh parse and ends
   the loop.
   */
  function ParseArgs(s: string, node: Command): Command
    requires StagePipesFollowed(Tokens(s))
    decreases |s|, 0
  {
    var u := SkipDelims(s, Blanks);
    if u == [] then node
    else
      var tok := Word(u, Blanks);
      var after := u[|tok|..];
      SplitHeadWord(u, Blanks);
      SplitSkip(s, Blanks);
      assert Tokens(s) == [tok] + Tokens(after);
      if tok == "|" then
        SplitSkip(after, Blanks);
        node.(next := Some(Parse(SkipDelims(after, Blanks))))
      else
        assert Tokens(s)[1..] == Tokens(after);
        ParseArgs(after, Absorb(node, tok))
  }

  /** A trimmed non-empty line starts with a token character. */
  lemma TrimStartsWord(line: string)
    ensures Trim(line) != [] ==> Trim(line)[0] !in Blanks
  {
    var u := SkipDelims(line, Blanks);
    TrimEndSplitsOff(u, Blanks);
  }
}
