/**
 A reference reading of `parse_command` over the token sequence of a line:
 each stage is its name followed by its own tokens up to the first `|`, its
 arguments are the argument tokens in order, each redirect slot holds the
 target of the last token for it, and every stage carries the flags of the
 line's last character. The theorem `ParseIsChain` shows that the line-level
 parser, with its re-parse of the raw remainder, builds exactly this chain.
 */
module ParserSpec {
  import opened Wrappers
  import opened SeqFacts
  import opened Tokenizer
  import opened Commands
  import opened Parser

  /** The position of the first `|` in `ts`, or `|ts|` when there is none. */
  function SepIndex(ts: seq<string>): (k: nat)
    ensures k <= |ts|
    ensures forall i :: 0 <= i < k ==> ts[i] != "|"
    ensures k < |ts| ==> ts[k] == "|"
    decreases |ts|
  {
    if ts == [] || ts[0] == "|" then 0 else 1 + SepIndex(ts[1..])
  }

  /** The arguments a stage's own tokens contribute, in input order. */
  function ArgsOf(ts: seq<string>): seq<string>
    decreases |ts|
  {
    if ts == [] then [] else ArgumentOf(ts[0]) + ArgsOf(ts[1..])
  }

  /** The target of the last token in `ts` that redirects `slot`. */
  function LastTarget(ts: seq<string>, slot: Slot): Option<string>
    decreases |ts|
  {
    if ts == [] then None else Override(TargetFor(ts[0], slot), LastTarget(ts[1..], slot))
  }

  /**
   A slot is empty exactly when no token redirects it, and otherwise holds the
   target of a token for it that no later token for it follows.
   */
  lemma {:induction false} LastTargetSpec(ts: seq<string>, slot: Slot)
    ensures var r := LastTarget(ts, slot);
            && (r.None? <==> forall i :: 0 <= i < |ts| ==> TargetFor(ts[i], slot).None?)
            && (r.Some? ==>
                  exists i :: 0 <= i < |ts| && TargetFor(ts[i], slot) == r &&
                              forall j :: i < j < |ts| ==> TargetFor(ts[j], slot).None?)
    decreases |ts|
  {
    if ts != [] {
      var rest := ts[1..];
      var later := LastTarget(rest, slot);
      LastTargetSpec(rest, slot);
      forall j | 0 < j < |ts|
        ensures ts[j] == rest[j - 1]
      {
      }
      if later.Some? {
        var i :| 0 <= i < |rest| && TargetFor(rest[i], slot) == later
          && forall j :: i < j < |rest| ==> TargetFor(rest[j], slot).None?;
        assert TargetFor(ts[i + 1], slot) == later;
      } else {
        assert forall j :: 0 < j < |ts| ==> TargetFor(ts[j], slot).None?;
      }
    }
  }

  function SlotsOf(ts: seq<string>): Redirects {
    Redirects(LastTarget(ts, InputSlot), LastTarget(ts, TruncateSlot), LastTarget(ts, AppendSlot))
  }

  /** True when the last token ends in `ch`: the flag test on the trimmed line. */
  predicate EndsIn(toks: seq<string>, ch: char) {
    toks != [] && Last(toks) != [] && Last(Last(toks)) == ch
  }

  /** The reference chain for a token sequence, every stage carrying the given flags. */
  function Chain(toks: seq<string>, background: bool, autoComplete: bool): Command
    decreases |toks|
  {
    if toks == [] then Command("", background, autoComplete, [], NoRedirects, None)
    else
      var rest := toks[1..];
      var k := SepIndex(rest);
      var own := rest[..k];
      Command(toks[0], background, autoComplete, ArgsOf(own), SlotsOf(own),
        if k < |rest| then Some(Chain(rest[k + 1..], background, autoComplete)) else None)
  }

  /** The chain a line's tokens describe. */
  function LineChain(line: string): Command {
    var toks := Tokens(line);
    Chain(toks, EndsIn(toks, '&'), EndsIn(toks, '?'))
  }

  // ---------------------------------------------------------------------------
  // The parser builds the reference chain

  function Merge(earlier: Redirects, later: Redirects): Redirects {
    Redirects(Override(earlier.input, later.input), Override(earlier.truncate, later.truncate),
      Override(earlier.append, later.append))
  }

  /** What the token loop makes of `node` given the remaining tokens `ts`. */
  function Extend(node: Command, ts: seq<string>): Command {
    var k := SepIndex(ts);
    var own := ts[..k];
    node.(args := node.args + ArgsOf(own),
          redirects := Merge(node.redirects, SlotsOf(own)),
          next := if k < |ts| then Some(Chain(ts[k + 1..], EndsIn(ts, '&'), EndsIn(ts, '?'))) else node.next)
  }

  /** The flags read off the trimmed line are the flags of its last token. */
  lemma FlagsOfLine(line: string)
    ensures (Trim(line) != [] && Last(Trim(line)) == '&') == EndsIn(Tokens(line), '&')
    ensures (Trim(line) != [] && Last(Trim(line)) == '?') == EndsIn(Tokens(line), '?')
  {
    TrimmedEnd(line);
  }

  /** A suffix that keeps the last token keeps the flags. */
  lemma EndsInSuffix(ts: seq<string>, j: nat, ch: char)
    requires j < |ts|
    ensures EndsIn(ts[j..], ch) == EndsIn(ts, ch)
  {
    assert Last(ts[j..]) == Last(ts);
  }

  /** One token of the loop: absorbing it and extending equals extending by it. */
  lemma ExtendStep(node: Command, tok: string, ts: seq<string>)
    requires tok != "|"
    ensures Extend(Absorb(node, tok), ts) == Extend(node, [tok] + ts)
  {
    var all := [tok] + ts;
    var k := SepIndex(ts);
    assert all[1..] == ts;
    assert SepIndex(all) == k + 1;
    var own := ts[..k];
    assert all[..k + 1] == [tok] + own;
    var a := Extend(Absorb(node, tok), ts);
    var b := Extend(node, all);
    AbsorbEffect(node, tok);
    assert a.args == b.args by { ExtendStepArgs(node.args, tok, own); }
    assert a.redirects == b.redirects by { ExtendStepSlots(node.redirects, tok, own); }
    assert a.next == b.next by {
      if k < |ts| {
        assert all[k + 2..] == ts[k + 1..];
        EndsInSuffix(all, 1, '&');
        EndsInSuffix(all, 1, '?');
      }
    }
  }

  lemma ExtendStepArgs(args: seq<string>, tok: string, own: seq<string>)
    ensures (args + ArgumentOf(tok)) + ArgsOf(own) == args + ArgsOf([tok] + own)
  {
    assert ([tok] + own)[1..] == own;
    ConcatAssoc(args, ArgumentOf(tok), ArgsOf(own));
  }

  lemma ExtendStepSlots(r: Redirects, tok: string, own: seq<string>)
    requires Kind(tok) != Pipe
    ensures Merge(Redirects(Override(r.input, TargetFor(tok, InputSlot)),
                            Override(r.truncate, TargetFor(tok, TruncateSlot)),
                            Override(r.append, TargetFor(tok, AppendSlot))), SlotsOf(own))
         == Merge(r, SlotsOf([tok] + own))
  {
    assert ([tok] + own)[1..] == own;
  }

  /**
   The token loop over the raw rest `s` of a line extends the node exactly as
   the reference does with the tokens of `s`.
   */
  lemma {:induction false} ParseArgsIsExtend(s: string, node: Command)
    requires StagePipesFollowed(Tokens(s))
    ensures ParseArgs(s, node) == Extend(node, Tokens(s))
    decreases |s|, 0
  {
    var u := SkipDelims(s, Blanks);
    SplitSkip(s, Blanks);
    if u == [] {
      assert Tokens(s) == [];
      assert node.args + [] == node.args;
      assert Merge(node.redirects, SlotsOf([])) == node.redirects;
    } else {
      var tok := Word(u, Blanks);
      var after := u[|tok|..];
      SplitHeadWord(u, Blanks);
      var ts := Tokens(s);
      assert ts == [tok] + Tokens(after);
      if tok == "|" {
        var x := SkipDelims(after, Blanks);
        SplitSkip(after, Blanks);
        ParseIsChain(x);
        assert ts[..0] == [];
        assert node.args + [] == node.args;
        assert Merge(node.redirects, SlotsOf([])) == node.redirects;
        assert ts[1..] == Tokens(after);
        EndsInSuffix(ts, 1, '&');
        EndsInSuffix(ts, 1, '?');
      } else {
        assert ts[1..] == Tokens(after);
        ParseArgsIsExtend(after, Absorb(node, tok));
        ExtendStep(node, tok, Tokens(after));
      }
    }
  }

  /**
   The line parser builds the reference chain of the line's tokens: the
   re-parse of the raw remainder after a `|` sees exactly the tokens after it,
   and every stage gets the flags of the line's last character.
   */
  lemma {:induction false} ParseIsChain(line: string)
    requires WellFormed(line)
    ensures Parse(line) == LineChain(line)
    decreases |line|, 1
  {
    var t := Trim(line);
    var toks := Tokens(line);
    SplitTrim(line);
    FlagsOfLine(line);
    if t != [] {
      TrimStartsWord(line);
      SplitHeadWord(t, Blanks);
      var name := Word(t, Blanks);
      var rest := t[|name|..];
      assert toks == [name] + Tokens(rest);
      assert toks[1..] == Tokens(rest);
      var bg := EndsIn(toks, '&');
      var ac := EndsIn(toks, '?');
      var node := Command(name, bg, ac, [], NoRedirects, None);
      ParseArgsIsExtend(rest, node);
      var ts := Tokens(rest);
      var k := SepIndex(ts);
      assert [] + ArgsOf(ts[..k]) == ArgsOf(ts[..k]);
      if k < |ts| {
        EndsInSuffix(toks, 1, '&');
        EndsInSuffix(toks, 1, '?');
      }
    }
  }
}
