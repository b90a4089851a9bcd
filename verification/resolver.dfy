/**
 `resolve_command`: the search path is split on `:` and the directories are
 searched in order for an entry whose name equals the command name. Directory
 listings are data: a directory missing from the map cannot be opened.
 */
module Resolver {
  import opened Tokenizer

  /** The directories of the search path: its `:`-separated fields, empty ones dropped, in order. */
  function SearchDirs(pathVar: string): seq<string> {
    Split(pathVar, {':'})
  }

  /** `dir` can be opened and one of its entries is exactly `name`. */
  predicate Lists(listings: map<string, seq<string>>, dir: string, name: string) {
    dir in listings && name in listings[dir]
  }

  /** The reference result: `dir/name` for the first listing directory, or `""` when none lists it. */
  function FirstMatch(dirs: seq<string>, name: string, listings: map<string, seq<string>>): string
    decreases |dirs|
  {
    if dirs == [] then ""
    else if Lists(listings, dirs[0], name) then dirs[0] + "/" + name
    else FirstMatch(dirs[1..], name, listings)
  }

  /**
   The search result names the first directory, in search order, that lists
   the name, and is `""` exactly when no directory does.
   */
  lemma {:induction false} FirstMatchIsFirst(dirs: seq<string>, name: string, listings: map<string, seq<string>>)
    ensures FirstMatch(dirs, name, listings) == "" <==> forall i :: 0 <= i < |dirs| ==> !Lists(listings, dirs[i], name)
    ensures FirstMatch(dirs, name, listings) != "" ==>
              exists i :: 0 <= i < |dirs| && Lists(listings, dirs[i], name) &&
                          FirstMatch(dirs, name, listings) == dirs[i] + "/" + name &&
                          forall j :: 0 <= j < i ==> !Lists(listings, dirs[j], name)
    decreases |dirs|
  {
    if dirs == [] {
    } else if Lists(listings, dirs[0], name) {
      assert (dirs[0] + "/" + name)[|dirs[0]|] == '/';
    } else {
      FirstMatchIsFirst(dirs[1..], name, listings);
      var r := FirstMatch(dirs[1..], name, listings);
      assert forall i :: 0 < i < |dirs| ==> dirs[i] == dirs[1..][i - 1];
      if r != "" {
        var i :| 0 <= i < |dirs[1..]| && Lists(listings, dirs[1..][i], name) && r == dirs[1..][i] + "/" + name &&
                 forall j :: 0 <= j < i ==> !Lists(listings, dirs[1..][j], name);
        assert forall j :: 0 <= j < i + 1 ==> !Lists(listings, dirs[j], name) by {
          forall j | 0 <= j < i + 1 ensures !Lists(listings, dirs[j], name) {
            if j > 0 { assert dirs[j] == dirs[1..][j - 1]; }
          }
        }
      }
    }
  }

  /**
   The loops of `resolve_command`: each directory of the search path in turn,
   each of its entries in turn, stopping at the first entry equal to the name.
   */
  method ResolveCommand(name: string, pathVar: string, listings: map<string, seq<string>>) returns (pth: string)
    ensures pth == FirstMatch(SearchDirs(pathVar), name, listings)
  {
    var dirs := Split(pathVar, {':'});
    var i := 0;
    while i < |dirs|
      invariant 0 <= i <= |dirs|
      invariant FirstMatch(dirs, name, listings) == FirstMatch(dirs[i..], name, listings)
    {
      if dirs[i] in listings {
        var entries := listings[dirs[i]];
        var k := 0;
        while k < |entries|
          invariant 0 <= k <= |entries|
          invariant forall m :: 0 <= m < k ==> entries[m] != name
        {
          if entries[k] == name {
            assert dirs[i..][0] == dirs[i];
            pth := dirs[i] + "/" + entries[k];
            return;
          }
          k := k + 1;
        }
      }
      assert dirs[i..][0] == dirs[i] && dirs[i..][1..] == dirs[i + 1..];
      i := i + 1;
    }
    pth := "";
  }

  /** Writing directories out with `:` between them and searching the result gives them back. */
  lemma SearchDirsOfJoin(dirs: seq<string>)
    requires forall i :: 0 <= i < |dirs| ==> dirs[i] != [] && ':' !in dirs[i]
    ensures SearchDirs(Join(dirs, ':')) == dirs
  {
    forall i | 0 <= i < |dirs| ensures NoDelim(dirs[i], {':'}) {
    }
    SplitJoin(dirs, ':', {':'});
  }

  /** Empty fields are dropped and order is kept: `a::b` searches `a`'s fields, then `b`'s. */
  lemma SearchDirsOfDoubleColon(a: string, b: string)
    ensures SearchDirs(a + "::" + b) == SearchDirs(a) + SearchDirs(b)
  {
    assert a + "::" + b == a + ("::" + b);
    SplitAppend(a, "::" + b, {':'});
    SplitHeadDelim("::" + b, {':'});
    assert ("::" + b)[1..] == ":" + b;
    SplitHeadDelim(":" + b, {':'});
    assert (":" + b)[1..] == b;
  }
}
