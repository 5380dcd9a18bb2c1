/** Paths within a share, and trees of them. */
module Paths {
  import opened Pattern

  /** The place of the last separator among the first `n` characters, or -1. */
  function LastSeparatorBefore(p: string, n: nat): (i: int)
    requires n <= |p|
    ensures -1 <= i < n && (i >= 0 ==> p[i] == SEPARATOR)
    ensures forall j :: i < j < n ==> p[j] != SEPARATOR
  {
    if n == 0 then -1
    else if p[n - 1] == SEPARATOR then n - 1
    else LastSeparatorBefore(p, n - 1)
  }

  function LastSeparator(p: string): (i: int)
    ensures -1 <= i < |p| && (i >= 0 ==> p[i] == SEPARATOR)
    ensures forall j :: i < j < |p| ==> p[j] != SEPARATOR
  {
    LastSeparatorBefore(p, |p|)
  }

  lemma LastSeparatorIs(p: string, k: nat)
    requires k < |p| && p[k] == SEPARATOR && SEPARATOR !in p[k + 1..]
    ensures LastSeparator(p) == k
  {
    var i := LastSeparatorBefore(p, |p|);
    assert forall j :: k < j < |p| ==> p[j] == p[k + 1..][j - k - 1];
  }

  /** The directory a path is in; the share root is spelled "". */
  function Parent(p: string): string {
    if LastSeparator(p) < 0 then "" else p[..LastSeparator(p)]
  }

  function Base(p: string): string {
    if LastSeparator(p) < 0 then p else p[LastSeparator(p) + 1..]
  }

  /** joinGlob. */
  function JoinGlob(dir: string, name: string): string {
    if dir == "" then name else dir + [SEPARATOR] + name
  }

  lemma JoinedPath(dir: string, name: string)
    requires SEPARATOR !in name
    ensures dir != "" || name != "" ==> JoinGlob(dir, name) != ""
    ensures dir != "" ==> LastSeparator(JoinGlob(dir, name)) == |dir|
    ensures Parent(JoinGlob(dir, name)) == dir && Base(JoinGlob(dir, name)) == name
  {
    var p := JoinGlob(dir, name);
    if dir == "" {
      assert LastSeparator(p) == -1;
    } else {
      assert p[|dir| + 1..] == name;
      LastSeparatorIs(p, |dir|);
    }
  }

  lemma PathOfParts(p: string)
    requires Parent(p) == "" ==> LastSeparator(p) != 0
    ensures JoinGlob(Parent(p), Base(p)) == p
  {
    hide LastSeparator;
    if LastSeparator(p) >= 0 {
      assert p == p[..LastSeparator(p)] + [SEPARATOR] + Base(p);
    }
  }

  // ----- Trees -----

  /** A node has a name, and is in a directory unless it is at the root. */
  predicate TreeNode(nodes: map<string, bool>, p: string) {
    p != "" && Base(p) != "" && (LastSeparator(p) >= 0 ==> Parent(p) in nodes && nodes[Parent(p)])
  }

  /** Files and directories by path; the value says which are directories. */
  predicate Tree(nodes: map<string, bool>) {
    forall p :: p in nodes ==> TreeNode(nodes, p)
  }

  lemma NodeIsInItsDirectory(nodes: map<string, bool>, p: string)
    requires Tree(nodes) && p in nodes
    ensures JoinGlob(Parent(p), Base(p)) == p && SEPARATOR !in Base(p)
    ensures Parent(p) == "" <==> LastSeparator(p) < 0
    ensures Parent(p) != "" ==> Parent(p) in nodes && nodes[Parent(p)]
    ensures Parent(p) != [SEPARATOR]
  {
    assert TreeNode(nodes, p);
    assert !TreeNode(nodes, "");
    assert !TreeNode(nodes, [SEPARATOR]) by {
      LastSeparatorIs([SEPARATOR], 0);
    }
    PathOfParts(p);
  }

  // ----- Listing a directory -----

  predicate NoneTwice(names: seq<string>) {
    forall i, j :: 0 <= i < j < |names| ==> names[i] != names[j]
  }

  function Names(nodes: map<string, bool>, dir: string): set<string> {
    set p | p in nodes && JoinGlob(dir, Base(p)) == p :: Base(p)
  }

  lemma NamesAreEntries(nodes: map<string, bool>, dir: string, name: string)
    ensures name in Names(nodes, dir) <==> SEPARATOR !in name && JoinGlob(dir, name) in nodes
  {
    hide LastSeparator, JoinGlob;
    if SEPARATOR !in name {
      JoinedPath(dir, name);
    }
  }

  /** The names in a directory, in any order. */
  method List(nodes: map<string, bool>, dir: string) returns (names: seq<string>)
    ensures NoneTwice(names)
    ensures forall name :: name in names <==> SEPARATOR !in name && JoinGlob(dir, name) in nodes
  {
    hide Names, JoinGlob;
    var left := Names(nodes, dir);
    names := [];
    while left != {}
      invariant NoneTwice(names) && (forall name :: name in Names(nodes, dir) <==> name in left || name in names)
      invariant forall name :: name in left ==> name !in names
      decreases |left|
    {
      var name :| name in left;
      left := left - {name};
      names := names + [name];
    }
    forall name ensures name in names <==> SEPARATOR !in name && JoinGlob(dir, name) in nodes {
      NamesAreEntries(nodes, dir, name);
    }
  }
}
