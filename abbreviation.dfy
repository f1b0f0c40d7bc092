/** Resolution of abbreviated sub-command names in a command group: an exact
    name first, then the case-insensitive prefix matches, where a unique match
    wins and several matches are accepted only when the shortest of them is a
    prefix of all the others. */
module Abbreviation {
  import opened Common

  datatype Resolution =
    | Resolved(command: string)
    | NotFound                              // the group returns None
    | TooManyMatches(matches: seq<string>)  // "Too many matches: ..."

  /** `x.lower().startswith(cmdName.lower())`. */
  predicate Abbreviates(cmdName: string, x: string) {
    StartsWith(Lower(x), Lower(cmdName))
  }

  /** The commands matched by `cmdName`, in listing order. */
  function Matches(commands: seq<string>, cmdName: string): seq<string> {
    if commands == [] then []
    else
      var init := commands[..|commands| - 1];
      var x := commands[|commands| - 1];
      Matches(init, cmdName) + (if Abbreviates(cmdName, x) then [x] else [])
  }

  /** One step of the search for the shortest match: a falsy (empty) or strictly
      longer candidate is replaced. */
  function ShorterOf(shortest: string, x: string): string {
    if shortest == "" then x else if |shortest| > |x| then x else shortest
  }

  /** The value of `shortest` after the matches `ms` have been seen. */
  function ShortestOf(ms: seq<string>): string {
    if ms == [] then "" else ShorterOf(ShortestOf(ms[..|ms| - 1]), ms[|ms| - 1])
  }

  predicate AllStartWith(ms: seq<string>, p: string) {
    forall k :: 0 <= k < |ms| ==> StartsWith(ms[k], p)
  }

  lemma {:induction false} MatchesMembers(commands: seq<string>, cmdName: string)
    ensures forall x :: x in Matches(commands, cmdName) <==> x in commands && Abbreviates(cmdName, x)
  {
    if commands != [] {
      var init := commands[..|commands| - 1];
      MatchesMembers(init, cmdName);
      assert commands == init + [commands[|commands| - 1]];
    }
  }

  lemma {:induction false} ShortestIsAMatch(ms: seq<string>)
    requires ms != []
    ensures ShortestOf(ms) in ms
  {
    var init := ms[..|ms| - 1];
    if init != [] {
      ShortestIsAMatch(init);
      assert ShortestOf(init) in ms;
    }
  }

  /** Index `i` holds the first match of least length. */
  ghost predicate FirstOfLeastLength(ms: seq<string>, i: int) {
    && 0 <= i < |ms|
    && (forall k :: 0 <= k < |ms| ==> |ms[i]| <= |ms[k]|)
    && (forall k :: 0 <= k < i ==> |ms[k]| > |ms[i]|)
  }

  /** When no match is empty, the shortest match is the first one of least
      length. */
  lemma {:induction false} ShortestIsFirstOfLeastLength(ms: seq<string>)
    requires ms != []
    requires forall k :: 0 <= k < |ms| ==> ms[k] != ""
    ensures exists i :: FirstOfLeastLength(ms, i) && ms[i] == ShortestOf(ms)
  {
    var n := |ms|;
    var init := ms[..n - 1];
    if init == [] {
      assert ShortestOf(init) == "";
      assert FirstOfLeastLength(ms, 0) && ms[0] == ShortestOf(ms);
    } else {
      ShortestIsFirstOfLeastLength(init);
      var i :| FirstOfLeastLength(init, i) && init[i] == ShortestOf(init);
      assert forall k :: 0 <= k < n - 1 ==> init[k] == ms[k];
      if |ms[i]| > |ms[n - 1]| {
        assert FirstOfLeastLength(ms, n - 1);
      } else {
        assert FirstOfLeastLength(ms, i);
      }
    }
  }

  /** Resolves `cmdName` against the group's command names, listed as the group
      lists them. */
  method GetCommand(commands: seq<string>, cmdName: string) returns (r: Resolution)
    ensures cmdName in commands ==> r == Resolved(cmdName)
    ensures cmdName !in commands && Matches(commands, cmdName) == [] ==> r == NotFound
    ensures cmdName !in commands && |Matches(commands, cmdName)| == 1 ==>
      r == Resolved(Matches(commands, cmdName)[0])
    ensures cmdName !in commands && |Matches(commands, cmdName)| >= 2 ==>
      r == (var ms := Matches(commands, cmdName);
            if AllStartWith(ms, ShortestOf(ms)) then Resolved(ShortestOf(ms)) else TooManyMatches(ms))
    ensures r.Resolved? ==> r.command in commands && (r.command == cmdName || Abbreviates(cmdName, r.command))
  {
    if cmdName in commands {
      return Resolved(cmdName);
    }
    var matches: seq<string> := [];
    var shortest := "";
    var i := 0;
    while i < |commands|
      invariant 0 <= i <= |commands|
      invariant matches == Matches(commands[..i], cmdName)
      invariant shortest == ShortestOf(matches)
    {
      var x := commands[i];
      assert commands[..i + 1][..i] == commands[..i];
      if StartsWith(Lower(x), Lower(cmdName)) {
        assert (matches + [x])[..|matches|] == matches;
        matches := matches + [x];
        if shortest == "" {
          shortest := x;
        } else if |shortest| > |x| {
          shortest := x;
        }
      }
      i := i + 1;
    }
    assert commands[..i] == commands;
    MatchesMembers(commands, cmdName);
    if |matches| == 0 {
      r := NotFound;
    } else if |matches| == 1 {
      r := Resolved(matches[0]);
    } else {
      // Python's for/else: the else branch runs when no element breaks the loop.
      var j := 0;
      while j < |matches| && StartsWith(matches[j], shortest)
        invariant 0 <= j <= |matches|
        invariant forall k :: 0 <= k < j ==> StartsWith(matches[k], shortest)
      {
        j := j + 1;
      }
      ShortestIsAMatch(matches);
      if j == |matches| {
        r := Resolved(shortest);
      } else {
        r := TooManyMatches(matches);
      }
    }
  }
}
