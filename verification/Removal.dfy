/** Removing a whole subtree of a share, request by request. */
module Removal {
  import opened Wrappers
  import opened Pattern
  import opened Matcher
  import opened Paths
  import opened Spelling
  import Sets

  const MAX_REMOVE_RETRIES: nat := 10

  // ----- Requests for children -----

  /** The request for a child reaches that child exactly when the child's name neither ends in white space
      nor, with normalisation on, holds a slash. */
  lemma ChildIsReached(normalize: bool, dir: string, name: string)
    requires dir != "" && name != "" && NormalPath(normalize, dir) == dir
    ensures NormalPath(normalize, JoinGlob(dir, name)) == JoinGlob(dir, name) <==>
      !IsSpace(name[|name| - 1]) && (normalize ==> '/' !in name)
  {
    hide NormalPath;
    NormalMeans(normalize, dir);
    NormalMeans(normalize, JoinGlob(dir, name));
    var child := JoinGlob(dir, name);
    assert child[0] == dir[0] && child[|child| - 1] == name[|name| - 1];
    assert '/' in child <==> '/' in dir || '/' in name;
  }

  /** An entry "x " is not reached: the request made for it is for "x", so the directory is asked
      for while it still has an entry. */
  lemma TrailingSpaceReachesASibling()
    ensures NormalPath(true, JoinGlob("d", "x ")) == JoinGlob("d", "x")
  {
    var p := JoinGlob("d", "x ");
    assert p == "d\\x " && JoinGlob("d", "x") == "d\\x";
    assert SolidFrom(p, 0) == 0 && SolidTo(p, 0, 4) == SolidTo(p, 0, 3) == 3;
    assert p[0..3] == "d\\x" && Slashes("d\\x") == "d\\x";
  }

  /** Whatever a child is called, the request for it stays below its directory. */
  lemma ChildStaysBelow(normalize: bool, dir: string, name: string)
    requires dir != "" && NormalPath(normalize, dir) == dir
    ensures var child := NormalPath(normalize, JoinGlob(dir, name));
      |dir| < |child| && child[..|dir|] == dir && child[|dir|] == SEPARATOR
  {
    hide IsTrimmed;
    var p := dir + [SEPARATOR] + name;
    NormalMeans(normalize, dir);
    assert p[0] == dir[0] && p[|dir|] == SEPARATOR && !IsSpace(p[|dir|]);
    assert !IsSpace(p[0]) by {
      assert IsTrimmed(dir) ==> !IsSpace(dir[0]) by {
        TrimTrims(dir);
      }
    }
    var end := SolidTo(p, SolidFrom(p, 0), |p|);
    assert end > |dir|;
    var t := Trim(p);
    assert forall k :: 0 <= k <= |dir| ==> t[k] == p[k];
    assert forall k :: 0 <= k < |dir| ==> p[k] == dir[k];
  }

  // ----- Subtrees -----

  /** `q` is `p` or lies below it. */
  predicate Within(p: string, q: string) {
    q == p || (|p| < |q| && q[..|p|] == p && q[|p|] == SEPARATOR)
  }

  function Under(nodes: map<string, bool>, p: string): set<string> {
    set q | q in nodes && Within(p, q)
  }

  predicate HasEntries(nodes: map<string, bool>, dir: string) {
    exists q :: q in nodes && Parent(q) == dir && LastSeparator(q) >= 0
  }

  /** Below a path there is something only if the path is a directory with an entry the way there. */
  lemma {:induction false} WayDown(nodes: map<string, bool>, p: string, q: string) returns (entry: string)
    requires Tree(nodes) && q in nodes && Within(p, q) && p != q
    ensures p in nodes && nodes[p]
    ensures entry in nodes && Parent(entry) == p && LastSeparator(entry) == |p| && Within(entry, q)
    decreases |q|
  {
    hide LastSeparator, Within, Parent;
    assert TreeNode(nodes, q);
    OneLevelUp(p, q);
    entry := q;
    if Parent(q) != p {
      entry := WayDown(nodes, p, Parent(q));
      WithinAgain(entry, q);
    }
  }

  lemma OneLevelUp(p: string, q: string)
    requires Within(p, q) && p != q
    ensures LastSeparator(q) >= |p| && Within(p, Parent(q)) && |Parent(q)| < |q|
    ensures Parent(q) == p ==> LastSeparator(q) == |p|
    ensures Within(q, q)
  {
    var i := LastSeparator(q);
    assert i >= |p|;
    assert i > |p| ==> q[..i][..|p|] == q[..|p|];
  }

  lemma WithinAgain(entry: string, q: string)
    requires Within(entry, Parent(q)) && LastSeparator(q) >= 0
    ensures Within(entry, q)
  {
    var i := LastSeparator(q);
    assert |entry| < i ==> q[..i][..|entry|] == q[..|entry|];
  }

  lemma NothingUnderNothing(nodes: map<string, bool>, p: string)
    requires Tree(nodes) && p !in nodes
    ensures Under(nodes, p) == {}
  {
    forall q | q in nodes ensures !Within(p, q) {
      if Within(p, q) {
        var entry := WayDown(nodes, p, q);
      }
    }
  }

  lemma OnlyItself(nodes: map<string, bool>, p: string)
    requires Tree(nodes) && p in nodes && (nodes[p] ==> !HasEntries(nodes, p))
    ensures Under(nodes, p) == {p}
  {
    forall q | q in nodes && Within(p, q) ensures q == p {
      if q != p {
        var entry := WayDown(nodes, p, q);
        assert HasEntries(nodes, p);
      }
    }
  }

  /** Removing a file, or a directory with no entries, leaves a tree. */
  lemma StillATree(nodes: map<string, bool>, p: string)
    requires Tree(nodes) && p in nodes && (nodes[p] ==> !HasEntries(nodes, p))
    ensures Tree(nodes - {p})
  {
    var fewer := nodes - {p};
    forall q | q in fewer ensures TreeNode(fewer, q) {
      assert TreeNode(nodes, q);
      if LastSeparator(q) >= 0 && Parent(q) == p {
        assert HasEntries(nodes, p);
      }
    }
  }

  // ----- The server -----

  datatype Info = Directory | PlainFile | Missing | Failing

  /** A delete that was asked for: what, and whether it was a directory that still had entries. */
  datatype Deletion = Deletion(path: string, hadEntries: bool)

  /** The requests since then were for paths within `root`, and, when `careful`, none for a directory with entries. */
  ghost predicate Asked(before: seq<Deletion>, after: seq<Deletion>, root: string, careful: bool) {
    && |before| <= |after| && after[..|before|] == before
    && forall i :: |before| <= i < |after| ==> Within(root, after[i].path) && (careful ==> !after[i].hadEntries)
  }

  /** Nothing appeared or changed, and what disappeared was within `root`. */
  ghost predicate OnlyRemoved(before: map<string, bool>, after: map<string, bool>, root: string) {
    && (forall q :: q in after ==> q in before && after[q] == before[q])
    && (forall q :: q in before && !Within(root, q) ==> q in after)
  }

  /** Every path of the subtree is plain. */
  predicate Plain(normalize: bool, nodes: map<string, bool>, root: string) {
    forall q :: q in nodes && Within(root, q) ==> PlainPath(normalize, q)
  }

  /** What disappeared had plain paths. */
  ghost predicate PlainlyRemoved(normalize: bool, before: map<string, bool>, after: map<string, bool>) {
    forall q :: q in before && q !in after ==> PlainPath(normalize, q)
  }

  /** A subtree can be gone only if all its paths were plain. */
  lemma GoneMeansPlain(normalize: bool, before: map<string, bool>, after: map<string, bool>, root: string)
    requires PlainlyRemoved(normalize, before, after) && Under(after, root) == {}
    ensures Plain(normalize, before, root)
  {
    forall q | q in before && Within(root, q) ensures PlainPath(normalize, q) {
      assert q in after ==> q in Under(after, root);
    }
  }

  predicate Below(p: string, c: string) {
    Within(p, c) && c != p
  }

  lemma WithinBelow(p: string, c: string, q: string)
    requires Below(p, c) && Within(c, q)
    ensures Below(p, q)
  {
    if c != q {
      assert q[..|p|] == q[..|c|][..|p|];
    }
  }

  lemma PlainBelow(normalize: bool, before: map<string, bool>, after: map<string, bool>, p: string, c: string)
    requires Plain(normalize, before, p) && OnlyRemoved(before, after, p) && Below(p, c)
    ensures Plain(normalize, after, c)
  {
    forall q | q in after && Within(c, q) ensures PlainPath(normalize, q) {
      WithinBelow(p, c, q);
    }
  }

  lemma FewerBelow(before: map<string, bool>, after: map<string, bool>, p: string, c: string)
    requires OnlyRemoved(before, after, p) && p in before && Below(p, c)
    ensures |Under(after, c)| < |Under(before, p)|
  {
    var big, small := Under(before, p), Under(after, c);
    forall q | q in small ensures q in big - {p} {
      WithinBelow(p, c, q);
    }
    Sets.SubsetSize(small, big - {p});
    assert |big - {p}| == |big| - 1;
  }

  lemma RemovedBelow(n0: map<string, bool>, n1: map<string, bool>, n2: map<string, bool>, p: string, c: string)
    requires OnlyRemoved(n0, n1, p) && OnlyRemoved(n1, n2, c) && (c == p || Below(p, c))
    ensures OnlyRemoved(n0, n2, p)
  {
    forall q | Within(c, q) ensures Within(p, q) {
      if c != p {
        WithinBelow(p, c, q);
      }
    }
  }

  lemma AskedBelow(l0: seq<Deletion>, l1: seq<Deletion>, l2: seq<Deletion>, p: string, c: string, careful: bool, later: bool)
    requires Asked(l0, l1, p, careful) && Asked(l1, l2, c, later) && (careful ==> later) && (c == p || Below(p, c))
    ensures Asked(l0, l2, p, careful)
  {
    assert l2[..|l0|] == l2[..|l1|][..|l0|];
    forall i | |l0| <= i < |l2| ensures Within(p, l2[i].path) && (careful ==> !l2[i].hadEntries) {
      if i < |l1| {
        assert l2[i] == l2[..|l1|][i];
      } else if c != p {
        WithinBelow(p, c, l2[i].path);
      }
    }
  }

  lemma FilesHaveNoEntries(nodes: map<string, bool>, p: string)
    requires Tree(nodes) && (p in nodes ==> !nodes[p])
    ensures !HasEntries(nodes, p)
  {
    forall q | q in nodes ensures Parent(q) != p || LastSeparator(q) < 0 {
      assert TreeNode(nodes, q);
    }
  }

  lemma ChildIsBelow(normalize: bool, dir: string, name: string)
    requires dir != "" && NormalPath(normalize, dir) == dir
    ensures Below(dir, NormalPath(normalize, JoinGlob(dir, name)))
  {
    ChildStaysBelow(normalize, dir, name);
  }

  lemma PlainlyRemovedBoth(normalize: bool, n0: map<string, bool>, n1: map<string, bool>, n2: map<string, bool>)
    requires PlainlyRemoved(normalize, n0, n1) && PlainlyRemoved(normalize, n1, n2)
    ensures PlainlyRemoved(normalize, n0, n2)
  {
  }

  lemma PlainlyRemovedOne(normalize: bool, before: map<string, bool>, after: map<string, bool>, path: string)
    requires after == before || (after == before - {path} && PlainPath(normalize, path))
    ensures PlainlyRemoved(normalize, before, after) && OnlyRemoved(before, after, path)
  {
  }

  /** What one child's removal leaves of its directory. */
  lemma OneChildLess(n0: map<string, bool>, n1: map<string, bool>, n2: map<string, bool>, p: string, name: string, normalize: bool)
    requires p != "" && NormalPath(normalize, p) == p && p in n1
    requires OnlyRemoved(n0, n1, p) && OnlyRemoved(n1, n2, NormalPath(normalize, JoinGlob(p, name)))
    ensures OnlyRemoved(n0, n2, p) && p in n2
    ensures forall q :: q in n2 ==> q in n1
  {
    hide NormalPath;
    var c := NormalPath(normalize, JoinGlob(p, name));
    ChildIsBelow(normalize, p, name);
    RemovedBelow(n0, n1, n2, p, c);
    assert !Within(c, p);
  }

  /** In a plain subtree the child asked for is the one listed. */
  lemma PlainChild(n0: map<string, bool>, n1: map<string, bool>, p: string, name: string, normalize: bool)
    requires p != "" && NormalPath(normalize, p) == p && Plain(normalize, n0, p) && OnlyRemoved(n0, n1, p)
    requires JoinGlob(p, name) in n0
    ensures NormalPath(normalize, JoinGlob(p, name)) == JoinGlob(p, name) && ValidFilePath(JoinGlob(p, name))
    ensures Plain(normalize, n1, JoinGlob(p, name))
  {
    hide NormalPath, ValidFilePath;
    ChildIsBelow(normalize, p, name);
    assert Within(p, JoinGlob(p, name)) && PlainPath(normalize, JoinGlob(p, name));
    PlainBelow(normalize, n0, n1, p, JoinGlob(p, name));
  }

  lemma GoneIsNotThere(nodes: map<string, bool>, p: string)
    requires Under(nodes, p) == {}
    ensures p !in nodes
  {
    assert p in nodes ==> p in Under(nodes, p);
  }

  predicate NoneLeft(nodes: map<string, bool>, p: string, names: seq<string>) {
    forall n :: n in names ==> JoinGlob(p, n) !in nodes
  }

  lemma NoneYet(nodes: map<string, bool>, p: string, names: seq<string>)
    ensures NoneLeft(nodes, p, names[..0])
  {
  }

  lemma OneMoreGone(before: map<string, bool>, after: map<string, bool>, p: string, names: seq<string>, i: nat)
    requires i < |names| && NoneLeft(before, p, names[..i]) && JoinGlob(p, names[i]) !in after
    requires forall q :: q in after ==> q in before
    ensures NoneLeft(after, p, names[..i + 1])
  {
    hide JoinGlob;
    assert names[..i + 1] == names[..i] + [names[i]];
  }

  lemma NoEntriesLeft(before: map<string, bool>, after: map<string, bool>, p: string, names: seq<string>)
    requires Tree(before) && OnlyRemoved(before, after, p)
    requires forall n :: n in names <==> SEPARATOR !in n && JoinGlob(p, n) in before
    requires NoneLeft(after, p, names)
    ensures !HasEntries(after, p)
  {
    forall q | q in after ensures Parent(q) != p {
      NodeIsInItsDirectory(before, q);
    }
  }

  /** The share's tree as the server holds it. Any request may fail. */
  class Server {
    const normalize: bool
    var nodes: map<string, bool>
    ghost var log: seq<Deletion>
    /** How many requests failed that need not have. */
    ghost var mishaps: nat
    /** How many delete requests failed for good, and how often a caller's context ended while it waited to ask again. */
    ghost var refusals: nat
    ghost var cancellations: nat

    constructor (normalize: bool, nodes: map<string, bool>)
      ensures this.normalize == normalize && this.nodes == nodes && log == [] && mishaps == refusals == cancellations == 0
    {
      this.normalize, this.nodes, this.log := normalize, nodes, [];
      this.mishaps, this.refusals, this.cancellations := 0, 0, 0;
    }

    function Normal(p: string): string {
      NormalPath(normalize, p)
    }

    method Stat(name: string) returns (info: Info)
      modifies this`mishaps
      ensures info == Failing || info ==
        if Normal(name) !in nodes then Missing else if nodes[Normal(name)] then Directory else PlainFile
      ensures !ValidFilePath(Normal(name)) ==> info == Failing
      ensures mishaps == old(mishaps) + if info == Failing && ValidFilePath(Normal(name)) then 1 else 0
    {
      var path := Normal(name);
      var fails: bool := *;
      if !ValidFilePath(path) {
        return Failing;
      }
      if fails {
        mishaps := mishaps + 1;
        return Failing;
      }
      return if path !in nodes then Missing else if nodes[path] then Directory else PlainFile;
    }

    method ReadDir(name: string) returns (names: Option<seq<string>>)
      modifies this`mishaps
      ensures names.Some? ==> forall n :: n in names.value <==> SEPARATOR !in n && JoinGlob(Normal(name), n) in nodes
      ensures mishaps == old(mishaps) + if names.Some? then 0 else 1
    {
      var fails: bool := *;
      if fails {
        mishaps := mishaps + 1;
        return None;
      }
      var listed := List(nodes, Normal(name));
      names := Some(listed);
    }

    /** One delete request. The server refuses to remove what has entries, and may refuse anything. */
    method SendDelete(path: string) returns (ok: bool, busy: bool)
      requires Tree(nodes) && path in nodes
      modifies this
      ensures log == old(log) + [Deletion(path, old(nodes)[path] && HasEntries(old(nodes), path))]
      ensures Tree(nodes) && (nodes == old(nodes) || nodes == old(nodes) - {path})
      ensures ok ==> nodes == old(nodes) - {path} && Under(nodes, path) == {}
      ensures !ok && busy ==> nodes == old(nodes)
      ensures refusals == old(refusals) + (if !ok && !busy then 1 else 0) && cancellations == old(cancellations)
      ensures mishaps >= old(mishaps)
      ensures !ok && !(old(nodes)[path] && HasEntries(old(nodes), path)) ==> mishaps > old(mishaps)
    {
      log := log + [Deletion(path, nodes[path] && HasEntries(nodes, path))];
      var refuses: bool := *;
      busy := *;
      if refuses || (nodes[path] && exists q | q in nodes :: Parent(q) == path && LastSeparator(q) >= 0) {
        mishaps := mishaps + if refuses then 1 else 0;
        refusals := refusals + if busy then 0 else 1;
        return false, busy;
      }
      OnlyItself(nodes, path);
      StillATree(nodes, path);
      nodes := nodes - {path};
      var lost: bool := *;
      if lost {
        mishaps, refusals := mishaps + 1, refusals + 1;
      }
      return !lost, false;
    }

    /** The delay before a directory is asked for again. */
    method Pause() returns (cancelled: bool)
      modifies this`cancellations
      ensures cancellations == old(cancellations) + if cancelled then 1 else 0
    {
      cancelled := *;
      cancellations := cancellations + if cancelled then 1 else 0;
    }

    /** removeDir: asks again while somebody else holds the directory open. */
    method RemoveDir(path: string) returns (ok: bool)
      requires Tree(nodes) && path in nodes
      modifies this
      ensures Tree(nodes) && (nodes == old(nodes) || nodes == old(nodes) - {path})
      ensures ok ==> Under(nodes, path) == {}
      ensures Asked(old(log), log, path, !(old(nodes)[path] && HasEntries(old(nodes), path)))
      ensures 1 <= |log| - |old(log)| <= 11
      ensures !ok && refusals == old(refusals) && cancellations == old(cancellations) ==> |log| - |old(log)| == 11
      ensures mishaps >= old(mishaps)
      ensures !ok && !(old(nodes)[path] && HasEntries(old(nodes), path)) ==> mishaps > old(mishaps)
    {
      hide HasEntries, Under, Tree;
      var busy;
      ok, busy := SendDelete(path);
      if ok || !busy {
        return;
      }
      for i := 0 to MAX_REMOVE_RETRIES
        invariant nodes == old(nodes) && !ok && Asked(old(log), log, path, !(old(nodes)[path] && HasEntries(old(nodes), path)))
        invariant |log| == |old(log)| + i + 1 && refusals == old(refusals) && cancellations == old(cancellations)
        invariant mishaps >= old(mishaps) && (!(nodes[path] && HasEntries(nodes, path)) ==> mishaps > old(mishaps))
      {
        var cancelled := Pause();
        if cancelled {
          return false;
        }
        ok, busy := SendDelete(path);
        if ok || !busy {
          return;
        }
      }
    }

    method Remove(name: string) returns (ok: bool)
      requires Tree(nodes)
      modifies this
      ensures Tree(nodes) && OnlyRemoved(old(nodes), nodes, Normal(name)) && PlainlyRemoved(normalize, old(nodes), nodes)
      ensures ok ==> Under(nodes, Normal(name)) == {}
      ensures Asked(old(log), log, Normal(name), !HasEntries(old(nodes), Normal(name)))
      ensures mishaps >= old(mishaps)
      ensures !ok && ValidFilePath(Normal(name)) && Normal(name) in old(nodes) && !HasEntries(old(nodes), Normal(name)) ==>
        mishaps > old(mishaps)
    {
      hide NormalPath, HasEntries, Under, ValidFilePath, PlainlyRemoved, OnlyRemoved, Tree;
      var path := Normal(name);
      NormalPathIsNormal(normalize, name);
      PlainlyRemovedOne(normalize, nodes, nodes, path);
      if !ValidFilePath(path) {
        return false;
      }
      var info := Stat(path);
      match info
      case Failing => return false;
      case Missing => return false;
      case Directory =>
        ok := RemoveDir(path);
        PlainlyRemovedOne(normalize, old(nodes), nodes, path);
      case PlainFile =>
        var busy;
        ok, busy := SendDelete(path);
        PlainlyRemovedOne(normalize, old(nodes), nodes, path);
    }

    /** Removes the path and whatever is below it, children first. The path given is normalised, and so is each
        child's on the way down. Unless a request failed that need not have, a valid path is removed exactly when
        every path of its subtree is plain. */
    method RemoveAll(name: string) returns (ok: bool)
      requires Tree(nodes)
      modifies this
      ensures Tree(nodes) && OnlyRemoved(old(nodes), nodes, Normal(name)) && PlainlyRemoved(normalize, old(nodes), nodes)
      ensures ok ==> Under(nodes, Normal(name)) == {} && Plain(normalize, old(nodes), Normal(name))
      ensures Asked(old(log), log, Normal(name), Plain(normalize, old(nodes), Normal(name)))
      ensures !ValidFilePath(Normal(name)) ==> !ok && nodes == old(nodes) && log == old(log)
      ensures mishaps >= old(mishaps)
      ensures mishaps == old(mishaps) && ValidFilePath(Normal(name)) ==> (ok <==> Plain(normalize, old(nodes), Normal(name)))
      decreases |Under(nodes, Normal(name))|
    {
      hide NormalPath, HasEntries, Under, ValidFilePath, Within, Asked, OnlyRemoved, JoinGlob, PlainlyRemoved, Plain;
      hide PlainPath, NoneLeft, Tree;
      var path := Normal(name);
      NormalPathIsNormal(normalize, name);
      ghost var plain := Plain(normalize, nodes, path);
      NothingAsked(log, path, nodes, plain);
      PlainlyRemovedOne(normalize, nodes, nodes, path);
      var info := Stat(path);
      if info == Failing {
        return false;
      }
      if info == Missing {
        NothingUnderNothing(nodes, path);
        GoneMeansPlain(normalize, nodes, nodes, path);
        return true;
      }
      info := Stat(path);
      if info == Failing {
        return false;
      }
      if info != Directory {
        FilesHaveNoEntries(nodes, path);
        ok := Remove(path);
        AskedBelow(old(log), old(log), log, path, path, plain, !HasEntries(old(nodes), path));
        if ok {
          GoneMeansPlain(normalize, old(nodes), nodes, path);
        }
        return;
      }
      ValidIsNotEmpty(path);
      var names := ReadDir(path);
      if names.None? {
        return false;
      }
      NoneYet(nodes, path, names.value);
      for i := 0 to |names.value|
        invariant Tree(nodes) && OnlyRemoved(old(nodes), nodes, path) && PlainlyRemoved(normalize, old(nodes), nodes)
        invariant Asked(old(log), log, path, plain)
        invariant path in nodes && mishaps >= old(mishaps)
        invariant plain ==> NoneLeft(nodes, path, names.value[..i])
      {
        var childPath := JoinGlob(path, names.value[i]);
        ghost var before, asked, child := nodes, log, Normal(childPath);
        ChildIsBelow(normalize, path, names.value[i]);
        FewerBelow(old(nodes), nodes, path, child);
        if plain {
          PlainChild(old(nodes), nodes, path, names.value[i], normalize);
        }
        ok := RemoveAll(childPath);
        OneChildLess(old(nodes), before, nodes, path, names.value[i], normalize);
        PlainlyRemovedBoth(normalize, old(nodes), before, nodes);
        AskedBelow(old(log), asked, log, path, child, plain, Plain(normalize, before, child));
        if !ok {
          return;
        }
        if plain {
          GoneIsNotThere(nodes, childPath);
          OneMoreGone(before, nodes, path, names.value, i);
        }
      }
      assert names.value[..|names.value|] == names.value;
      if plain {
        NoEntriesLeft(old(nodes), nodes, path, names.value);
      }
      ghost var beforeLast, askedBefore := nodes, log;
      ok := Remove(path);
      RemovedBelow(old(nodes), beforeLast, nodes, path, path);
      PlainlyRemovedBoth(normalize, old(nodes), beforeLast, nodes);
      AskedBelow(old(log), askedBefore, log, path, path, plain, !HasEntries(beforeLast, path));
      if ok {
        GoneMeansPlain(normalize, old(nodes), nodes, path);
      }
    }
  }

  lemma NothingAsked(log: seq<Deletion>, root: string, nodes: map<string, bool>, careful: bool)
    ensures Asked(log, log, root, careful) && OnlyRemoved(nodes, nodes, root)
  {
  }

  lemma ValidIsNotEmpty(p: string)
    requires ValidFilePath(p)
    ensures p != ""
  {
  }
}
