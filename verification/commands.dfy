/**
 The `command_t` record of the shell and the meaning of a single token that
 follows a command's name on the line.
 */
module Commands {
  import opened Wrappers

  /** The three redirect slots of a command, by their index in `redirects[3]`. */
  datatype Slot = InputSlot | TruncateSlot | AppendSlot

  /** Redirect targets: slot 0 is `<file`, slot 1 is `>file`, slot 2 is `>>file`. */
  datatype Redirects = Redirects(input: Option<string>, truncate: Option<string>, append: Option<string>)
  {
    function Get(slot: Slot): Option<string> {
      match slot
      case InputSlot => input
      case TruncateSlot => truncate
      case AppendSlot => append
    }

    /** The slot overwritten with a new target; the other two are kept. */
    function Set(slot: Slot, target: string): (r: Redirects)
      ensures r.Get(slot) == Some(target)
      ensures forall other: Slot :: other != slot ==> r.Get(other) == Get(other)
    {
      match slot
      case InputSlot => this.(input := Some(target))
      case TruncateSlot => this.(truncate := Some(target))
      case AppendSlot => this.(append := Some(target))
    }
  }

  const NoRedirects := Redirects(None, None, None)

  /**
   One pipeline stage. `args` excludes the name (its length is `arg_count`);
   `next` is the stage the output is piped into.
   */
  datatype Command = Command(
    name: string,
    background: bool,
    autoComplete: bool,
    args: seq<string>,
    redirects: Redirects,
    next: Option<Command>)

  /** The stages of a chain, first to last. */
  function Stages(c: Command): (s: seq<Command>)
    ensures s != [] && s[0] == c
    ensures c.next.Some? ==> s[1..] == Stages(c.next.value)
    ensures c.next.None? ==> |s| == 1
    decreases c
  {
    [c] + (if c.next.Some? then Stages(c.next.value) else [])
  }

  /** What a token after the name does to the command being built. */
  datatype TokenKind =
    | Pipe                                   // exactly `|`: ends the stage
    | Ampersand                              // exactly `&`: dropped
    | Redirect(slot: Slot, target: string)   // `<x`, `>x` or `>>x`
    | Argument(value: string)                // anything else, quotes stripped

  predicate IsQuote(c: char) {
    c == '"' || c == '\''
  }

  /** A token longer than two characters wrapped in a matching pair of quotes loses the pair. */
  function Unquote(tok: string): string {
    if |tok| > 2 && IsQuote(tok[0]) && tok[|tok| - 1] == tok[0] then tok[1..|tok| - 1] else tok
  }

  function Kind(tok: string): TokenKind {
    if tok == "|" then Pipe
    else if tok == "&" then Ampersand
    else if |tok| > 0 && tok[0] == '<' then Redirect(InputSlot, tok[1..])
    else if |tok| > 0 && tok[0] == '>' then
      if |tok| > 1 && tok[1] == '>' then Redirect(AppendSlot, tok[2..])
      else Redirect(TruncateSlot, tok[1..])
    else Argument(Unquote(tok))
  }

  /** The target a token gives `slot`, if it is a redirect to that slot. */
  function TargetFor(tok: string, slot: Slot): Option<string> {
    match Kind(tok)
    case Redirect(s, t) => if s == slot then Some(t) else None
    case _ => None
  }

  /** The argument a token contributes, if it is an ordinary argument. */
  function ArgumentOf(tok: string): seq<string> {
    match Kind(tok)
    case Argument(a) => [a]
    case _ => []
  }

  /** A later target for a slot replaces an earlier one. */
  function Override(earlier: Option<string>, later: Option<string>): Option<string> {
    if later.Some? then later else earlier
  }

  /** The effect of one non-pipe token on the stage being parsed. */
  function Absorb(c: Command, tok: string): Command {
    match Kind(tok)
    case Redirect(slot, target) => c.(redirects := c.redirects.Set(slot, target))
    case Argument(a) => c.(args := c.args + [a])
    case _ => c
  }

  /** The redirect token that `Kind` reads back as `Redirect(slot, target)`. */
  function RedirectToken(slot: Slot, target: string): string {
    match slot
    case InputSlot => "<" + target
    case TruncateSlot => ">" + target
    case AppendSlot => ">>" + target
  }

  // ---------------------------------------------------------------------------
  // Token-level facts

  /**
   The target of a redirect is the rest of its own token: writing a redirect
   token and classifying it gives back the slot and the target. A `>` whose
   target itself starts with `>` is read as an append instead.
   */
  lemma RedirectRoundTrip(slot: Slot, target: string)
    requires slot == TruncateSlot ==> target == [] || target[0] != '>'
    ensures Kind(RedirectToken(slot, target)) == Redirect(slot, target)
  {
    var tok := RedirectToken(slot, target);
    assert tok[0] != '|' && tok[0] != '&';
    match slot
    case InputSlot => assert tok[1..] == target;
    case TruncateSlot => assert tok[1..] == target;
    case AppendSlot => assert tok[2..] == target;
  }

  /** Wrapping a non-empty argument in a matching pair of quotes and unquoting gives it back. */
  lemma UnquoteStripsPair(q: char, body: string)
    requires IsQuote(q) && body != []
    ensures Unquote([q] + body + [q]) == body
  {
    var tok := [q] + body + [q];
    assert tok[1..|tok| - 1] == body;
  }

  /** `""`, `''`, short tokens and tokens whose ends do not match stay as written. */
  lemma UnquoteKeepsUnwrapped(tok: string)
    requires |tok| <= 2 || !IsQuote(tok[0]) || tok[|tok| - 1] != tok[0]
    ensures Unquote(tok) == tok
  {
  }

  /** Absorbing a token adds its argument at the end and lets it overwrite its slot. */
  lemma AbsorbEffect(c: Command, tok: string)
    requires Kind(tok) != Pipe
    ensures Absorb(c, tok).name == c.name && Absorb(c, tok).next == c.next
    ensures Absorb(c, tok).args == c.args + ArgumentOf(tok)
    ensures forall slot: Slot ::
              Absorb(c, tok).redirects.Get(slot) == Override(c.redirects.Get(slot), TargetFor(tok, slot))
  {
  }
}
