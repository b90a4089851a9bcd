/**
 The closed set of built-in commands: `is_builtin` decides membership and
 `execute_builtin` picks the handler by the same names.
 */
module Builtins {
  import opened Wrappers

  datatype Builtin = Uniq | Chatroom | Wiseman | MyFactor

  function BuiltinName(b: Builtin): string {
    match b
    case Uniq => "uniq"
    case Chatroom => "chatroom"
    case Wiseman => "wiseman"
    case MyFactor => "myfactor"
  }

  /** `is_builtin`: the name is one of the four built-in names. */
  predicate IsBuiltin(name: string) {
    name == "uniq" || name == "chatroom" || name == "wiseman" || name == "myfactor"
  }

  /** `execute_builtin`: the handler its chain of comparisons selects, if any. */
  function Dispatch(name: string): Option<Builtin> {
    if name == "uniq" then Some(Uniq)
    else if name == "chatroom" then Some(Chatroom)
    else if name == "wiseman" then Some(Wiseman)
    else if name == "myfactor" then Some(MyFactor)
    else None
  }

  /**
   The membership test and the dispatch agree: a name is built in exactly when
   the dispatch runs a handler, and that handler is the one of that name.
   */
  lemma DispatchAgrees(name: string)
    ensures Dispatch(name).Some? <==> IsBuiltin(name)
    ensures Dispatch(name).Some? ==> BuiltinName(Dispatch(name).value) == name
  {
  }

  /** Every built-in is reached by its own name. */
  lemma DispatchByName(b: Builtin)
    ensures IsBuiltin(BuiltinName(b))
    ensures Dispatch(BuiltinName(b)) == Some(b)
  {
  }
}
