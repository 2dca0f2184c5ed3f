/** Matching a sighted object's name against the catalog of available items. */
module Catalog {

  /** The index of the LAST catalog entry named `name`, or -1 when none is:
      the scan visits every entry in order and each match overwrites the
      previous one. */
  function LastMatch(names: seq<string>, name: string): (r: int)
    ensures -1 <= r < |names|
    ensures r >= 0 ==> names[r] == name
    ensures forall j :: r < j < |names| ==> names[j] != name
  {
    if |names| == 0 then -1
    else if names[|names| - 1] == name then |names| - 1
    else LastMatch(names[..|names| - 1], name)
  }

  /** The index of the FIRST catalog entry named `name`, or -1 when none is;
      a reference definition to compare the scan against. */
  function FirstMatch(names: seq<string>, name: string): (r: int)
    ensures -1 <= r < |names|
    ensures r >= 0 ==> names[r] == name
    ensures forall j :: 0 <= j < |names| && (r == -1 || j < r) ==> names[j] != name
  {
    if |names| == 0 then -1
    else if names[0] == name then 0
    else
      var r := FirstMatch(names[1..], name);
      if r == -1 then -1 else r + 1
  }

  /** No two catalog entries share a name. */
  predicate UniqueNames(names: seq<string>)
  {
    forall i, j :: 0 <= i < j < |names| ==> names[i] != names[j]
  }

  /** Extending the scanned prefix by one entry: the match moves to that entry
      exactly when it carries the name. */
  lemma LastMatchStep(names: seq<string>, name: string, i: nat)
    requires i < |names|
    ensures LastMatch(names[..i + 1], name) ==
            if names[i] == name then i else LastMatch(names[..i], name)
  {
  }

  /** The scan finds a name exactly when the catalog holds it. */
  lemma LastMatchFound(names: seq<string>, name: string)
    ensures LastMatch(names, name) >= 0 <==> name in names
  {
  }

  /** With unique names (the catalog's stated rule) the last match is the
      only match, so it agrees with the first. */
  lemma UniqueNamesMatchAgree(names: seq<string>, name: string)
    requires UniqueNames(names)
    ensures LastMatch(names, name) == FirstMatch(names, name)
  {
  }

  /** With a duplicated name the scan settles on a later entry than any
      other occurrence, where a first-match scan would settle on an earlier one. */
  lemma DuplicateNameLastWins(names: seq<string>, name: string, i: nat, j: nat)
    requires i < j < |names| && names[i] == name && names[j] == name
    ensures FirstMatch(names, name) <= i < j <= LastMatch(names, name)
  {
  }
}
