/**
 Splitting strings on a set of delimiter characters, the way repeated `strtok`
 calls do: tokens are the maximal runs of non-delimiters, and empty fields are
 never produced. The shell splits a line on space and tab and the search path
 on `:` with the same operation.
 */
module Tokenizer {
  import opened SeqFacts

  /** The characters a command line is split on. */
  const Blanks: set<char> := {' ', '\t'}

  predicate NoDelim(s: string, delims: set<char>) {
    forall i :: 0 <= i < |s| ==> s[i] !in delims
  }

  predicate AllDelims(s: string, delims: set<char>) {
    forall i :: 0 <= i < |s| ==> s[i] in delims
  }

  /** `s` without its leading delimiters. */
  function SkipDelims(s: string, delims: set<char>): (r: string)
    ensures |r| <= |s|
    ensures r == [] || r[0] !in delims
    decreases |s|
  {
    if s != [] && s[0] in delims then SkipDelims(s[1..], delims) else s
  }

  /** `s` without its trailing delimiters. */
  function TrimEnd(s: string, delims: set<char>): (r: string)
    ensures |r| <= |s|
    ensures r == [] || r[|r| - 1] !in delims
    decreases |s|
  {
    if s != [] && s[|s| - 1] in delims then TrimEnd(s[..|s| - 1], delims) else s
  }

  /** `s` without the blanks at either end, as `parse_command` trims its buffer. */
  function Trim(s: string): string {
    TrimEnd(SkipDelims(s, Blanks), Blanks)
  }

  /** The longest prefix of `s` that holds no delimiter. */
  function Word(s: string, delims: set<char>): (w: string)
    ensures |w| <= |s|
    ensures s != [] && s[0] !in delims ==> w != []
    decreases |s|
  {
    if s == [] || s[0] in delims then [] else [s[0]] + Word(s[1..], delims)
  }

  /** The tokens of `s`: its maximal runs of non-delimiters, left to right. */
  function Split(s: string, delims: set<char>): (toks: seq<string>)
    decreases |s|
  {
    var t := SkipDelims(s, delims);
    if t == [] then []
    else
      var w := Word(t, delims);
      [w] + Split(t[|w|..], delims)
  }

  /** Every token is non-empty and free of delimiters. */
  lemma {:induction false} SplitTokens(s: string, delims: set<char>)
    ensures forall i :: 0 <= i < |Split(s, delims)| ==> Split(s, delims)[i] != [] && NoDelim(Split(s, delims)[i], delims)
    decreases |s|
  {
    var t := SkipDelims(s, delims);
    if t != [] {
      var w := Word(t, delims);
      WordNoDelim(t, delims);
      SplitTokens(t[|w|..], delims);
    }
  }

  lemma {:induction false} WordPrefix(s: string, delims: set<char>)
    ensures Word(s, delims) == s[..|Word(s, delims)|]
    decreases |s|
  {
    if s != [] && s[0] !in delims {
      WordPrefix(s[1..], delims);
    }
  }

  lemma {:induction false} WordNoDelim(s: string, delims: set<char>)
    ensures NoDelim(Word(s, delims), delims)
    decreases |s|
  {
    if s != [] && s[0] !in delims {
      WordNoDelim(s[1..], delims);
    }
  }

  /** The tokens written out again, separated by one `sep` each. */
  function Join(toks: seq<string>, sep: char): string
    decreases |toks|
  {
    if toks == [] then []
    else if |toks| == 1 then toks[0]
    else toks[0] + [sep] + Join(toks[1..], sep)
  }

  // ---------------------------------------------------------------------------
  // Unfolding facts

  /** `SkipDelims` drops a prefix made only of delimiters. */
  lemma {:induction false} SkipDelimsSplitsOff(s: string, delims: set<char>)
    ensures s == s[..|s| - |SkipDelims(s, delims)|] + SkipDelims(s, delims)
    ensures AllDelims(s[..|s| - |SkipDelims(s, delims)|], delims)
    decreases |s|
  {
    if s != [] && s[0] in delims {
      SkipDelimsSplitsOff(s[1..], delims);
      var k := |s| - |SkipDelims(s, delims)|;
      assert s[..k] == [s[0]] + s[1..][..k - 1];
    }
  }

  /** `TrimEnd` drops a suffix made only of delimiters. */
  lemma {:induction false} TrimEndSplitsOff(s: string, delims: set<char>)
    ensures s == TrimEnd(s, delims) + s[|TrimEnd(s, delims)|..]
    ensures AllDelims(s[|TrimEnd(s, delims)|..], delims)
    decreases |s|
  {
    if s != [] && s[|s| - 1] in delims {
      var s' := s[..|s| - 1];
      TrimEndSplitsOff(s', delims);
      var k := |TrimEnd(s, delims)|;
      assert s[k..] == s'[k..] + [s[|s| - 1]];
    }
  }

  lemma SplitHeadDelim(s: string, delims: set<char>)
    requires s != [] && s[0] in delims
    ensures Split(s, delims) == Split(s[1..], delims)
  {
  }

  lemma SplitHeadWord(s: string, delims: set<char>)
    requires s != [] && s[0] !in delims
    ensures Word(s, delims) != []
    ensures Split(s, delims) == [Word(s, delims)] + Split(s[|Word(s, delims)|..], delims)
  {
  }

  /** A word stops at the end of `a` when what follows starts with a delimiter. */
  lemma {:induction false} WordAppend(a: string, b: string, delims: set<char>)
    requires b == [] || b[0] in delims
    ensures Word(a + b, delims) == Word(a, delims)
    decreases |a|
  {
    if a == [] {
      assert a + b == b;
    } else if a[0] !in delims {
      assert (a + b)[1..] == a[1..] + b;
      WordAppend(a[1..], b, delims);
    }
  }

  lemma {:induction false} SplitAllDelims(w: string, delims: set<char>)
    requires AllDelims(w, delims)
    ensures Split(w, delims) == []
    decreases |w|
  {
    if w != [] {
      SplitAllDelims(w[1..], delims);
    }
  }

  /** Leading delimiters do not change the tokens. */
  lemma {:induction false} SplitDropLeading(pre: string, s: string, delims: set<char>)
    requires AllDelims(pre, delims)
    ensures Split(pre + s, delims) == Split(s, delims)
    decreases |pre|
  {
    if pre != [] {
      assert (pre + s)[1..] == pre[1..] + s;
      SplitDropLeading(pre[1..], s, delims);
    } else {
      assert pre + s == s;
    }
  }

  /**
   Cutting a string just before a delimiter splits its token sequence there:
   tokens never span the cut, and none is lost or reordered.
   */
  lemma {:induction false} SplitAppend(a: string, b: string, delims: set<char>)
    requires b == [] || b[0] in delims
    ensures Split(a + b, delims) == Split(a, delims) + Split(b, delims)
    decreases |a|
  {
    if a == [] {
      assert a + b == b;
    } else if a[0] in delims {
      assert (a + b)[1..] == a[1..] + b;
      SplitHeadDelim(a, delims);
      SplitHeadDelim(a + b, delims);
      SplitAppend(a[1..], b, delims);
    } else {
      var w := Word(a, delims);
      WordAppend(a, b, delims);
      SplitHeadWord(a, delims);
      SplitHeadWord(a + b, delims);
      assert (a + b)[|w|..] == a[|w|..] + b;
      SplitAppend(a[|w|..], b, delims);
      ConcatAssoc([w], Split(a[|w|..], delims), Split(b, delims));
    }
  }

  lemma SplitSkip(s: string, delims: set<char>)
    ensures Split(SkipDelims(s, delims), delims) == Split(s, delims)
  {
    var t := SkipDelims(s, delims);
    SkipDelimsSplitsOff(s, delims);
    SplitDropLeading(s[..|s| - |t|], t, delims);
  }

  lemma SplitTrimEnd(s: string, delims: set<char>)
    ensures Split(TrimEnd(s, delims), delims) == Split(s, delims)
  {
    var r := TrimEnd(s, delims);
    TrimEndSplitsOff(s, delims);
    SplitAppend(r, s[|r|..], delims);
    SplitAllDelims(s[|r|..], delims);
    assert Split(s[|r|..], delims) == [];
    assert Split(r, delims) + [] == Split(r, delims);
  }

  /** Trimming the blanks at both ends keeps the tokens of a line. */
  lemma SplitTrim(s: string)
    ensures Split(Trim(s), Blanks) == Split(s, Blanks)
  {
    SplitTrimEnd(SkipDelims(s, Blanks), Blanks);
    SplitSkip(s, Blanks);
  }

  /** When `s` ends in a non-delimiter, that character ends the last token. */
  lemma {:induction false} LastTokenEnd(s: string, delims: set<char>)
    requires s != [] && Last(s) !in delims
    ensures Split(s, delims) != [] && Last(Split(s, delims)) != []
    ensures Last(Last(Split(s, delims))) == Last(s)
    decreases |s|
  {
    if s[0] in delims {
      SplitHeadDelim(s, delims);
      LastTokenEnd(s[1..], delims);
    } else {
      SplitHeadWord(s, delims);
      var w := Word(s, delims);
      var rest := s[|w|..];
      WordPrefix(s, delims);
      if rest == [] {
        assert w == s;
      } else {
        LastTokenEnd(rest, delims);
      }
    }
  }

  /** The last character of a trimmed line is the last character of its last token. */
  lemma TrimmedEnd(s: string)
    ensures (Trim(s) == []) == (Split(s, Blanks) == [])
    ensures Trim(s) != [] ==> Last(Split(s, Blanks)) != [] && Last(Trim(s)) == Last(Last(Split(s, Blanks)))
  {
    SplitTrim(s);
    if Trim(s) != [] {
      LastTokenEnd(Trim(s), Blanks);
    }
  }

  /** Splitting undoes joining with a delimiter, for tokens free of delimiters. */
  lemma {:induction false} SplitJoin(toks: seq<string>, sep: char, delims: set<char>)
    requires sep in delims
    requires forall i :: 0 <= i < |toks| ==> toks[i] != [] && NoDelim(toks[i], delims)
    ensures Split(Join(toks, sep), delims) == toks
    decreases |toks|
  {
    if toks == [] {
    } else {
      var w := toks[0];
      var tail := if |toks| == 1 then [] else [sep] + Join(toks[1..], sep);
      assert Join(toks, sep) == w + tail;
      WordAppend(w, tail, delims);
      assert Word(w + [], delims) == w by {
        assert w + [] == w;
        WordIsWhole(w, delims);
      }
      assert Word(w, delims) == w by { WordIsWhole(w, delims); }
      SplitHeadWord(w + tail, delims);
      assert (w + tail)[|w|..] == tail;
      if |toks| > 1 {
        SplitHeadDelim(tail, delims);
        assert tail[1..] == Join(toks[1..], sep);
        SplitJoin(toks[1..], sep, delims);
      }
    }
  }

  lemma {:induction false} WordIsWhole(w: string, delims: set<char>)
    requires NoDelim(w, delims)
    ensures Word(w, delims) == w
    decreases |w|
  {
    if w != [] {
      WordIsWhole(w[1..], delims);
    }
  }
}
